/**
  The layout of a dependency graph in waves.  The source peels off ready nodes until none
  is left or none is ready; LayoutExact says that a node's wave is its longest dependency
  path, and that the last-resort wave holds exactly the nodes that reach a cycle or a
  missing dependency.
 */
module DagWaves {
  import opened Wrappers
  import opened Strings

  type Id = string
  datatype Node = Node(id: Id, deps: seq<Id>)
  datatype Wave = Wave(index: int, ids: seq<Id>)

  /** The dependencies of each node; of nodes with one id the last counts. */
  type Graph = map<Id, seq<Id>>

  function GraphOf(nodes: seq<Node>): Graph
  {
    if nodes == [] then map[]
    else GraphOf(nodes[..|nodes| - 1])[nodes[|nodes| - 1].id := nodes[|nodes| - 1].deps]
  }

  /** The graph has the ids of the nodes, and the dependencies of the last node of each id. */
  lemma {:induction false} GraphExact(nodes: seq<Node>, id: Id)
    ensures id in GraphOf(nodes) <==> exists i :: 0 <= i < |nodes| && nodes[i].id == id
    ensures forall i :: 0 <= i < |nodes| && nodes[i].id == id && (forall j :: i < j < |nodes| ==> nodes[j].id != id) ==>
              id in GraphOf(nodes) && GraphOf(nodes)[id] == nodes[i].deps
  {
    if nodes != [] {
      var n := |nodes| - 1;
      GraphExact(nodes[..n], id);
      assert forall i :: 0 <= i < n ==> nodes[..n][i] == nodes[i];
      assert nodes[n].id == id || id !in GraphOf(nodes) || id in GraphOf(nodes[..n]);
    }
  }

  // What a layout should say, in terms of dependency paths

  /** Each node but the last is in the graph and depends on the next. */
  predicate IsPath(g: Graph, p: seq<Id>)
  {
    p != [] && forall k :: 0 <= k < |p| - 1 ==> p[k] in g && p[k + 1] in g[p[k]]
  }

  /** A path that cannot be continued to an end: into nothing, or into itself. */
  predicate DeadEnd(g: Graph, p: seq<Id>)
  {
    IsPath(g, p) && (p[|p| - 1] !in g || p[|p| - 1] in p[..|p| - 1])
  }

  ghost predicate Doomed(g: Graph, id: Id)
  {
    exists p :: DeadEnd(g, p) && p[0] == id
  }

  /** The longest path from a node has k edges. */
  ghost predicate Longest(g: Graph, id: Id, k: nat)
  {
    && (exists p :: IsPath(g, p) && p[0] == id && |p| == k + 1)
    && (forall p :: IsPath(g, p) && p[0] == id ==> |p| <= k + 1)
  }

  // Peeling

  predicate AllIn(deps: seq<Id>, s: set<Id>)
  {
    forall d :: d in deps ==> d in s
  }

  function Ready(g: Graph, rest: set<Id>): (r: set<Id>)
    requires rest <= g.Keys
    ensures r <= rest
  {
    set id | id in rest && AllIn(g[id], g.Keys - rest)
  }

  /** What is left after k waves of ready nodes. */
  function Rest(g: Graph, k: nat): (r: set<Id>)
    ensures r <= g.Keys
  {
    if k == 0 then g.Keys else Rest(g, k - 1) - Ready(g, Rest(g, k - 1))
  }

  function Layer(g: Graph, k: nat): (r: set<Id>)
    ensures r <= Rest(g, k)
  {
    Ready(g, Rest(g, k))
  }

  /** A node that is gone was in one of the layers. */
  lemma {:induction false} GoneWasReady(g: Graph, id: Id, k: nat) returns (j: nat)
    requires id in g && id !in Rest(g, k)
    ensures j < k && id in Layer(g, j)
  {
    if id in Rest(g, k - 1) {
      j := k - 1;
    } else {
      j := GoneWasReady(g, id, k - 1);
    }
  }

  lemma PathTail(g: Graph, p: seq<Id>)
    requires IsPath(g, p) && |p| > 1
    ensures p[0] in g && p[1] in g[p[0]] && IsPath(g, p[1..])
  {
    var t := p[1..];
    forall k | 0 <= k < |t| - 1 ensures t[k] in g && t[k + 1] in g[t[k]] {
      assert t[k] == p[k + 1] && t[k + 1] == p[k + 2];
    }
  }

  lemma PathCons(g: Graph, id: Id, p: seq<Id>)
    requires IsPath(g, p) && id in g && p[0] in g[id]
    ensures IsPath(g, [id] + p)
  {
    var q := [id] + p;
    assert forall k :: 1 <= k < |q| ==> q[k] == p[k - 1];
  }

  lemma PathSnoc(g: Graph, p: seq<Id>, id: Id)
    requires IsPath(g, p) && p[|p| - 1] in g && id in g[p[|p| - 1]]
    ensures IsPath(g, p + [id])
  {}

  /** A dead end from a node is a dead end from the next node of the path. */
  lemma DeadEndPasses(g: Graph, p: seq<Id>)
    requires DeadEnd(g, p) && p[0] in g
    ensures |p| > 1 && Doomed(g, p[1])
  {
    assert |p| > 1;
    PathTail(g, p);
    var t, last := p[1..], p[|p| - 1];
    if last !in g || last in t[..|t| - 1] {
      assert DeadEnd(g, t);
    } else {
      assert p[..|p| - 1] == [p[0]] + t[..|t| - 1];
      assert last == p[0];
      PathSnoc(g, t, p[1]);
      var q := t + [p[1]];
      assert q[..|q| - 1] == t && DeadEnd(g, q);
    }
  }

  lemma {:induction false} LayerIsLongest(g: Graph, k: nat, id: Id)
    requires id in Layer(g, k)
    ensures Longest(g, id, k) && !Doomed(g, id)
    decreases k
  {
    LayerBound(g, k, id);
    LayerReach(g, k, id);
    if Doomed(g, id) {
      var p :| DeadEnd(g, p) && p[0] == id;
      DeadEndPasses(g, p);
      PathTail(g, p);
      var j := GoneWasReady(g, p[1], k);
      LayerIsLongest(g, j, p[1]);
    }
  }

  lemma {:induction false} LayerBound(g: Graph, k: nat, id: Id)
    requires id in Layer(g, k)
    ensures forall p :: IsPath(g, p) && p[0] == id ==> |p| <= k + 1
    decreases k
  {
    forall p | IsPath(g, p) && p[0] == id ensures |p| <= k + 1 {
      if |p| > 1 {
        PathTail(g, p);
        var j := GoneWasReady(g, p[1], k);
        LayerBound(g, j, p[1]);
        assert IsPath(g, p[1..]) && p[1..][0] == p[1];
      }
    }
  }

  lemma {:induction false} LayerReach(g: Graph, k: nat, id: Id)
    requires id in Layer(g, k)
    ensures exists p :: IsPath(g, p) && p[0] == id && |p| == k + 1
    decreases k
  {
    if k == 0 {
      assert IsPath(g, [id]);
    } else {
      var d :| d in g[id] && d !in g.Keys - Rest(g, k - 1);
      assert d in Layer(g, k - 1);
      LayerReach(g, k - 1, d);
      var p :| IsPath(g, p) && p[0] == d && |p| == k;
      PathCons(g, id, p);
      assert ([id] + p)[0] == id;
    }
  }

  // When nothing is ready, everything left is doomed

  lemma {:induction false} Repetition(s: seq<Id>, all: set<Id>) returns (i: nat, j: nat)
    requires |s| > |all| && forall k :: 0 <= k < |s| ==> s[k] in all
    ensures i < j < |s| && s[i] == s[j]
    decreases |s|
  {
    var n := |s| - 1;
    if k :| 0 <= k < n && s[k] == s[n] {
      i, j := k, n;
    } else {
      assert |all - {s[n]}| == |all| - 1;
      i, j := Repetition(s[..n], all - {s[n]});
    }
  }

  /** From a node that is left, a path of n further nodes that are left, or a dead end. */
  lemma {:induction false} Wander(g: Graph, rest: set<Id>, id: Id, n: nat) returns (p: seq<Id>)
    requires rest <= g.Keys && Ready(g, rest) == {} && id in rest
    ensures IsPath(g, p) && p[0] == id
    ensures DeadEnd(g, p) || (|p| == n + 1 && forall k :: 0 <= k < |p| ==> p[k] in rest)
  {
    if n == 0 {
      p := [id];
    } else {
      p := Wander(g, rest, id, n - 1);
      if !DeadEnd(g, p) {
        var last := p[|p| - 1];
        assert last !in Ready(g, rest);
        var d :| d in g[last] && d !in g.Keys - rest;
        PathSnoc(g, p, d);
        p := p + [d];
      }
    }
  }

  lemma Stuck(g: Graph, rest: set<Id>, id: Id)
    requires rest <= g.Keys && Ready(g, rest) == {} && id in rest
    ensures Doomed(g, id)
  {
    var p := Wander(g, rest, id, |rest|);
    if !DeadEnd(g, p) {
      var i, j := Repetition(p, rest);
      var q := p[..j + 1];
      assert q[..j] == p[..j] && p[j] in q[..j];
      assert DeadEnd(g, q) && q[0] == id;
    }
  }

  // The layout

  predicate Ascending(ids: seq<Id>)
  {
    forall i, j :: 0 <= i < j < |ids| ==> Before(ids[i], ids[j])
  }

  predicate Lists(ids: seq<Id>, s: set<Id>)
  {
    Ascending(ids) && (forall i :: 0 <= i < |ids| ==> ids[i] in s) && (forall id :: id in s ==> id in ids)
  }

  /** The first n waves are the first n layers, none of them empty. */
  ghost predicate Layered(g: Graph, waves: seq<Wave>, n: nat)
  {
    n <= |waves| && forall k :: 0 <= k < n ==> waves[k].index == k && waves[k].ids != [] && Lists(waves[k].ids, Layer(g, k))
  }

  ghost predicate Fallback(g: Graph, waves: seq<Wave>)
  {
    var n := |waves| - 1;
    && n >= 0 && Layered(g, waves, n) && Layer(g, n) == {} && Rest(g, n) != {}
    && waves[n].index == n && Lists(waves[n].ids, Rest(g, n))
  }

  ghost predicate Clean(g: Graph, waves: seq<Wave>)
  {
    Layered(g, waves, |waves|) && Rest(g, |waves|) == {}
  }

  ghost predicate IsLayout(g: Graph, waves: seq<Wave>)
  {
    Clean(g, waves) || Fallback(g, waves)
  }

  /** The longest path of a node has one length. */
  lemma LongestUnique(g: Graph, id: Id, j: nat, k: nat)
    requires Longest(g, id, j) && Longest(g, id, k)
    ensures j == k
  {
    var p :| IsPath(g, p) && p[0] == id && |p| == j + 1;
    var q :| IsPath(g, q) && q[0] == id && |q| == k + 1;
  }

  /** Among waves that are layers, a node that was peeled is in that of its longest path and no other. */
  lemma LayeredExact(g: Graph, waves: seq<Wave>, n: nat, id: Id)
    requires Layered(g, waves, n) && id in g && id !in Rest(g, n)
    ensures !Doomed(g, id) && (exists k :: 0 <= k < n && id in waves[k].ids)
    ensures forall k :: 0 <= k < n ==> (id in waves[k].ids <==> Longest(g, id, k))
  {
    hide Longest, Doomed, Layer, Rest;
    var j := GoneWasReady(g, id, n);
    LayerIsLongest(g, j, id);
    assert Lists(waves[j].ids, Layer(g, j));
    forall k | 0 <= k < n ensures id in waves[k].ids <==> Longest(g, id, k) {
      assert Lists(waves[k].ids, Layer(g, k));
      if id in waves[k].ids { LayerIsLongest(g, k, id); }
      if Longest(g, id, k) { LongestUnique(g, id, j, k); }
    }
  }

  /** In a clean layout no node is doomed, and each is in exactly the wave of its longest path. */
  lemma CleanExact(g: Graph, waves: seq<Wave>, id: Id)
    requires Clean(g, waves) && id in g
    ensures !Doomed(g, id) && (exists k :: 0 <= k < |waves| && id in waves[k].ids)
    ensures forall k :: 0 <= k < |waves| ==> (id in waves[k].ids <==> Longest(g, id, k))
  {
    hide Longest, Doomed, Layered;
    LayeredExact(g, waves, |waves|, id);
  }

  /** Otherwise the last wave is exactly the doomed nodes. */
  lemma FallbackExact(g: Graph, waves: seq<Wave>, id: Id)
    requires Fallback(g, waves) && id in g
    ensures id in waves[|waves| - 1].ids <==> Doomed(g, id)
    ensures !Doomed(g, id) ==>
              && (exists k :: 0 <= k < |waves| - 1 && id in waves[k].ids)
              && forall k :: 0 <= k < |waves| - 1 ==> (id in waves[k].ids <==> Longest(g, id, k))
  {
    hide Longest, Doomed, Layered;
    var n := |waves| - 1;
    if id in Rest(g, n) { Stuck(g, Rest(g, n), id); } else { LayeredExact(g, waves, n, id); }
  }

  /** The fallback fires exactly when some node is doomed. */
  lemma LayoutExact(g: Graph, waves: seq<Wave>)
    requires IsLayout(g, waves)
    ensures Fallback(g, waves) <==> exists id :: id in g && Doomed(g, id)
  {
    if Fallback(g, waves) {
      var id :| id in Rest(g, |waves| - 1);
      Stuck(g, Rest(g, |waves| - 1), id);
    } else {
      forall id | id in g ensures !Doomed(g, id) { CleanExact(g, waves, id); }
    }
  }

  // Every node is in exactly one wave, once

  function Tally(waves: seq<Wave>): multiset<Id>
  {
    if waves == [] then multiset{} else Tally(waves[..|waves| - 1]) + multiset(waves[|waves| - 1].ids)
  }

  ghost predicate Partition(g: Graph, waves: seq<Wave>)
  {
    Tally(waves) == multiset(g.Keys)
  }

  lemma TallySnoc(waves: seq<Wave>, w: Wave)
    ensures Tally(waves + [w]) == Tally(waves) + multiset(w.ids)
  {
    assert (waves + [w])[..|waves|] == waves;
  }

  lemma {:induction false} TallyConcat(a: seq<Wave>, b: seq<Wave>)
    ensures Tally(a + b) == Tally(a) + Tally(b)
  {
    hide Tally;
    if b == [] {
      TallyNothing();
      assert a + b == a;
    } else {
      var m, w := b[..|b| - 1], b[|b| - 1];
      TallyConcat(a, m);
      assert a + b == (a + m) + [w] && b == m + [w];
      TallySnoc(a + m, w);
      TallySnoc(m, w);
    }
  }

  lemma TallyNothing()
    ensures Tally([]) == multiset{}
  {}

  predicate NoDup(ids: seq<Id>)
  {
    forall i, j :: 0 <= i < j < |ids| ==> ids[i] != ids[j]
  }

  /** The two list the same ids. */
  ghost predicate SameIds(ids: seq<Id>, s: set<Id>)
  {
    forall id :: id in ids <==> id in s
  }

  lemma DropLast(ids: seq<Id>, s: set<Id>)
    requires NoDup(ids) && ids != [] && SameIds(ids, s)
    ensures var n := |ids| - 1; NoDup(ids[..n]) && SameIds(ids[..n], s - {ids[n]}) && s == (s - {ids[n]}) + {ids[n]}
  {
    var n := |ids| - 1;
    assert ids == ids[..n] + [ids[n]];
    assert ids[n] in ids;
  }

  lemma {:induction false} NoDupCounts(ids: seq<Id>, s: set<Id>)
    requires NoDup(ids) && SameIds(ids, s)
    ensures multiset(ids) == multiset(s)
  {
    hide NoDup, SameIds;
    if ids == [] {
      NothingSame(s);
    } else {
      var n := |ids| - 1;
      DropLast(ids, s);
      NoDupCounts(ids[..n], s - {ids[n]});
      DisjointUnion(s - {ids[n]}, {ids[n]});
      assert ids == ids[..n] + [ids[n]];
      assert multiset(ids) == multiset(ids[..n]) + multiset([ids[n]]);
    }
  }

  lemma NothingSame(s: set<Id>)
    requires SameIds([], s)
    ensures s == {}
  {
    forall id ensures id !in s { assert id !in []; }
  }

  lemma ListsCounts(ids: seq<Id>, s: set<Id>)
    requires Lists(ids, s)
    ensures multiset(ids) == multiset(s)
  {
    forall i, j | 0 <= i < j < |ids| ensures ids[i] != ids[j] { BeforeIrreflexive(ids[i]); }
    NoDupCounts(ids, s);
  }

  lemma NoTally(g: Graph)
    ensures Tally([]) == multiset(g.Keys - Rest(g, 0))
  {
    assert g.Keys - g.Keys == {};
  }

  lemma DisjointUnion(a: set<Id>, b: set<Id>)
    requires a !! b
    ensures multiset(a + b) == multiset(a) + multiset(b)
  {}

  lemma {:induction false} LayersCount(g: Graph, waves: seq<Wave>, n: nat)
    requires Layered(g, waves, n)
    ensures Tally(waves[..n]) == multiset(g.Keys - Rest(g, n))
  {
    hide Lists, Tally, Ready;
    if n == 0 {
      NoTally(g);
    } else {
      LayersCount(g, waves, n - 1);
      var w := waves[n - 1];
      assert Lists(w.ids, Layer(g, n - 1));
      ListsCounts(w.ids, Layer(g, n - 1));
      assert waves[..n] == waves[..n - 1] + [w];
      TallySnoc(waves[..n - 1], w);
      DisjointUnion(g.Keys - Rest(g, n - 1), Layer(g, n - 1));
      assert g.Keys - Rest(g, n) == (g.Keys - Rest(g, n - 1)) + Layer(g, n - 1);
    }
  }

  lemma LayoutPartitions(g: Graph, waves: seq<Wave>)
    requires IsLayout(g, waves)
    ensures Partition(g, waves)
  {
    hide Layered, Lists, Tally, Rest, Layer;
    if Clean(g, waves) {
      LayersCount(g, waves, |waves|);
      assert waves[..|waves|] == waves && g.Keys - {} == g.Keys;
    } else {
      var n := |waves| - 1;
      LayersCount(g, waves, n);
      ListsCounts(waves[n].ids, Rest(g, n));
      assert waves == waves[..n] + [waves[n]];
      TallySnoc(waves[..n], waves[n]);
      DisjointUnion(g.Keys - Rest(g, n), Rest(g, n));
      assert g.Keys == (g.Keys - Rest(g, n)) + Rest(g, n);
    }
  }

  // The loops

  lemma AscendingInsert(a: seq<Id>, id: Id, b: seq<Id>)
    requires Ascending(a + b) && (a != [] ==> Before(a[|a| - 1], id)) && (b != [] ==> Before(id, b[0]))
    ensures Ascending(a + [id] + b)
  {
    var old_, s := a + b, a + [id] + b;
    forall i, j | 0 <= i < j < |s| ensures Before(s[i], s[j]) {
      if i < |a| && j == |a| {
        assert s[i] == old_[i];
        if i < |a| - 1 { assert Before(old_[i], old_[|a| - 1]); BeforeTransitive(s[i], a[|a| - 1], id); }
      } else if i == |a| {
        assert s[j] == b[j - |a| - 1];
        if j > |a| + 1 { assert Before(old_[|a|], old_[j - 1]); BeforeTransitive(id, b[0], s[j]); }
      } else {
        assert s[i] == old_[if i < |a| then i else i - 1] && s[j] == old_[if j < |a| then j else j - 1];
      }
    }
  }

  /** An insertion sort stands for the library's. */
  method SortIds(ids: seq<Id>) returns (sorted: seq<Id>)
    requires NoDup(ids)
    ensures Ascending(sorted) && multiset(sorted) == multiset(ids)
  {
    hide Before;
    sorted := [];
    var i := 0;
    while i < |ids|
      invariant 0 <= i <= |ids| && Ascending(sorted) && multiset(sorted) == multiset(ids[..i])
    {
      assert ids[..i + 1] == ids[..i] + [ids[i]];
      FreshId(ids, i, sorted);
      sorted := InsertId(sorted, ids[i]);
      i := i + 1;
    }
    assert ids[..|ids|] == ids;
  }

  lemma FreshId(ids: seq<Id>, i: nat, sorted: seq<Id>)
    requires NoDup(ids) && i < |ids| && multiset(sorted) == multiset(ids[..i])
    ensures ids[i] !in sorted
  {
    assert ids[i] in sorted <==> ids[i] in multiset(ids[..i]);
  }

  method InsertId(sorted: seq<Id>, id: Id) returns (r: seq<Id>)
    requires Ascending(sorted) && id !in sorted
    ensures Ascending(r) && multiset(r) == multiset(sorted) + multiset{id}
  {
    hide Before, Ascending;
    var j := |sorted|;
    while j > 0 && Before(id, sorted[j - 1])
      invariant 0 <= j <= |sorted| && (j < |sorted| ==> Before(id, sorted[j]))
    {
      j := j - 1;
    }
    if j > 0 { BeforeTotal(id, sorted[j - 1]); }
    assert sorted == sorted[..j] + sorted[j..];
    AscendingInsert(sorted[..j], id, sorted[j..]);
    r := sorted[..j] + [id] + sorted[j..];
  }

  method CollectReady(remaining: Graph, seen: set<Id>) returns (ids: seq<Id>)
    ensures NoDup(ids) && forall id :: id in ids <==> id in remaining && AllIn(remaining[id], seen)
  {
    ids := [];
    var todo := remaining.Keys;
    while todo != {}
      invariant todo <= remaining.Keys && NoDup(ids)
      invariant forall id :: id in ids <==> id in remaining && id !in todo && AllIn(remaining[id], seen)
    {
      var id :| id in todo;
      todo := todo - {id};
      var ready := IsReady(remaining[id], seen);
      if ready { ids := ids + [id]; }
    }
  }

  method IsReady(deps: seq<Id>, seen: set<Id>) returns (ready: bool)
    ensures ready <==> AllIn(deps, seen)
  {
    for i := 0 to |deps|
      invariant forall k :: 0 <= k < i ==> deps[k] in seen
    {
      if deps[i] !in seen { return false; }
    }
    ready := true;
  }

  method CollectAll(remaining: Graph) returns (ids: seq<Id>)
    ensures NoDup(ids) && forall id :: id in ids <==> id in remaining
  {
    ids := [];
    var todo := remaining.Keys;
    while todo != {}
      invariant todo <= remaining.Keys && NoDup(ids) && forall id :: id in ids <==> id in remaining && id !in todo
    {
      var id :| id in todo;
      todo := todo - {id};
      ids := ids + [id];
    }
  }

  lemma SortedLists(ids: seq<Id>, sorted: seq<Id>, s: set<Id>)
    requires Ascending(sorted) && multiset(sorted) == multiset(ids) && forall id :: id in ids <==> id in s
    ensures Lists(sorted, s)
  {
    forall id ensures id in sorted <==> id in ids {
      assert id in sorted <==> id in multiset(sorted);
      assert id in ids <==> id in multiset(ids);
    }
  }

  /** The state of the peeling loop. */
  ghost predicate Peeled(g: Graph, remaining: Graph, seen: set<Id>, waves: seq<Wave>)
  {
    && Layered(g, waves, |waves|) && remaining.Keys == Rest(g, |waves|) && seen == g.Keys - Rest(g, |waves|)
    && forall id :: id in remaining ==> remaining[id] == g[id]
  }

  lemma PeelReady(g: Graph, remaining: Graph, seen: set<Id>, waves: seq<Wave>, ids: seq<Id>, sorted: seq<Id>)
    requires Peeled(g, remaining, seen, waves) && Ascending(sorted) && multiset(sorted) == multiset(ids)
    requires forall id :: id in ids <==> id in remaining && AllIn(remaining[id], seen)
    ensures ids == [] <==> Layer(g, |waves|) == {}
    ensures ids != [] ==> Peeled(g, remaining - (set id | id in ids), seen + (set id | id in ids), waves + [Wave(|waves|, sorted)])
  {
    hide Ascending, AllIn;
    var n := |waves|;
    assert forall id :: id in ids <==> id in Layer(g, n);
    if ids == [] {
      assert Layer(g, n) == {};
    } else {
      assert ids[0] in Layer(g, n);
      SortedLists(ids, sorted, Layer(g, n));
      assert (set id | id in ids) == Layer(g, n);
      assert sorted != [] by { assert |multiset(sorted)| == |multiset(ids)|; }
    }
  }

  lemma PeelRest(g: Graph, remaining: Graph, seen: set<Id>, waves: seq<Wave>, ids: seq<Id>, sorted: seq<Id>)
    requires Peeled(g, remaining, seen, waves) && Ascending(sorted) && multiset(sorted) == multiset(ids)
    requires (forall id :: id in ids <==> id in remaining) && Layer(g, |waves|) == {} && remaining != map[]
    ensures Fallback(g, waves + [Wave(|waves|, sorted)])
  {
    hide Ascending, AllIn;
    SortedLists(ids, sorted, Rest(g, |waves|));
    assert (waves + [Wave(|waves|, sorted)])[..|waves|] == waves;
  }

  method ComputeWaves(nodes: seq<Node>) returns (waves: seq<Wave>)
    ensures IsLayout(GraphOf(nodes), waves) && Partition(GraphOf(nodes), waves)
    ensures forall k :: 0 <= k < |waves| ==>
              && waves[k].index == k && waves[k].ids != []
              && forall i, j :: 0 <= i < j < |waves[k].ids| ==> Before(waves[k].ids[i], waves[k].ids[j])
  {
    hide Ascending, AllIn, Peeled, Tally, Layered;
    ghost var g := GraphOf(nodes);
    var remaining: Graph := map[];
    for i := 0 to |nodes|
      invariant remaining == GraphOf(nodes[..i])
    {
      assert nodes[..i + 1][..i] == nodes[..i];
      remaining := remaining[nodes[i].id := nodes[i].deps];
    }
    assert nodes[..|nodes|] == nodes;
    var seen: set<Id> := {};
    waves := [];
    assert Peeled(g, remaining, seen, waves) by { NothingPeeled(g); }
    while remaining != map[]
      invariant Peeled(g, remaining, seen, waves)
      decreases |remaining|
    {
      var ids := CollectReady(remaining, seen);
      var sorted := SortIds(ids);
      PeelReady(g, remaining, seen, waves, ids, sorted);
      if ids == [] {
        ids := CollectAll(remaining);
        sorted := SortIds(ids);
        PeelRest(g, remaining, seen, waves, ids, sorted);
        waves := waves + [Wave(|waves|, sorted)];
        LayoutPartitions(g, waves);
        WavesAscend(g, waves);
        return;
      }
      waves := waves + [Wave(|waves|, sorted)];
      assert ids[0] in remaining;
      seen := seen + (set id | id in ids);
      remaining := remaining - (set id | id in ids);
    }
    assert Clean(g, waves) by { PeelDone(g, remaining, seen, waves); }
    LayoutPartitions(g, waves);
    WavesAscend(g, waves);
  }

  lemma WavesAscend(g: Graph, waves: seq<Wave>)
    requires IsLayout(g, waves)
    ensures forall k :: 0 <= k < |waves| ==>
              && waves[k].index == k && waves[k].ids != []
              && forall i, j :: 0 <= i < j < |waves[k].ids| ==> Before(waves[k].ids[i], waves[k].ids[j])
  {}

  lemma NothingPeeled(g: Graph)
    ensures Peeled(g, g, {}, [])
  {}

  lemma PeelDone(g: Graph, remaining: Graph, seen: set<Id>, waves: seq<Wave>)
    requires Peeled(g, remaining, seen, waves) && remaining == map[]
    ensures Clean(g, waves)
  {}

  // The stored layout

  datatype Hint = Hint(index: Option<int>, ids: seq<Id>)

  const MaxSafeIndex := 0x1F_FFFF_FFFF_FFFF

  predicate HintOk(h: Hint)
  {
    h.ids != [] && h.index.Some? && 0 <= h.index.value <= MaxSafeIndex
  }

  function AsWave(h: Hint): Wave
  {
    Wave(if h.index.Some? then h.index.value else 0, h.ids)
  }

  function AsWaves(hints: seq<Hint>): (w: seq<Wave>)
    ensures |w| == |hints| && forall k :: 0 <= k < |hints| ==> w[k] == AsWave(hints[k])
  {
    if hints == [] then [] else AsWaves(hints[..|hints| - 1]) + [AsWave(hints[|hints| - 1])]
  }

  predicate DistinctIndices(w: seq<Wave>)
  {
    forall i, j :: 0 <= i < j < |w| ==> w[i].index != w[j].index
  }

  /** A hint that covers every node exactly once, in waves with distinct safe indices. */
  ghost predicate Usable(hints: seq<Hint>, nodes: seq<Node>)
  {
    && hints != [] && (forall k :: 0 <= k < |hints| ==> HintOk(hints[k])) && DistinctIndices(AsWaves(hints))
    && Partition(GraphOf(nodes), AsWaves(hints)) && |GraphOf(nodes)| == |nodes|
  }

  lemma CoverStep(ids: seq<Id>, known: set<Id>, covered: set<Id>, all: set<Id>, i: nat)
    requires i < |ids| && all <= known && multiset(all) == multiset(covered) + multiset(ids[..i])
    ensures ids[i] in known && ids[i] !in all ==>
              all + {ids[i]} <= known && multiset(all + {ids[i]}) == multiset(covered) + multiset(ids[..i + 1])
    ensures ids[i] !in known || ids[i] in all ==> !(multiset(covered) + multiset(ids) <= multiset(known))
  {
    var id := ids[i];
    assert ids[..i + 1] == ids[..i] + [id];
    if id !in all {
      DisjointUnion(all, {id});
      assert multiset({id}) == multiset{id} == multiset([id]);
    }
    assert ids == ids[..i] + [id] + ids[i + 1..];
    assert multiset(ids) == multiset(ids[..i]) + multiset([id]) + multiset(ids[i + 1..]);
    assert (multiset(covered) + multiset(ids))[id] >= multiset(all)[id] + 1;
  }

  /** Covering the ids of one more hint; false at an unknown or repeated id. */
  method CoverIds(ids: seq<Id>, known: set<Id>, covered: set<Id>) returns (all: set<Id>, ok: bool)
    requires covered <= known
    ensures ok <==> multiset(covered) + multiset(ids) <= multiset(known)
    ensures ok ==> all <= known && multiset(all) == multiset(covered) + multiset(ids)
  {
    all := covered;
    for i := 0 to |ids|
      invariant all <= known && multiset(all) == multiset(covered) + multiset(ids[..i])
    {
      CoverStep(ids, known, covered, all, i);
      if ids[i] !in known || ids[i] in all {
        return all, false;
      }
      all := all + {ids[i]};
    }
    assert ids[..|ids|] == ids;
    Inside(all, known);
    ok := true;
  }

  lemma Inside(a: set<Id>, b: set<Id>)
    requires a <= b
    ensures multiset(a) <= multiset(b)
  {}

  lemma {:induction false} TallyPrefix(waves: seq<Wave>, n: nat)
    requires n <= |waves|
    ensures Tally(waves[..n]) <= Tally(waves)
  {
    assert waves == waves[..n] + waves[n..];
    TallyConcat(waves[..n], waves[n..]);
  }

  /** The first i hints are fine so far. */
  ghost predicate Accepting(hints: seq<Hint>, i: nat, waves: seq<Wave>, indices: set<int>, covered: set<Id>, known: set<Id>)
  {
    && i <= |hints| && waves == AsWaves(hints)[..i] && covered <= known && Tally(waves) == multiset(covered)
    && (forall k :: 0 <= k < i ==> HintOk(hints[k])) && DistinctIndices(waves)
    && (forall x :: x in indices <==> exists k :: 0 <= k < i && waves[k].index == x)
  }

  lemma AcceptIndex(hints: seq<Hint>, i: nat, waves: seq<Wave>, indices: set<int>, covered: set<Id>, known: set<Id>, nodes: seq<Node>)
    requires Accepting(hints, i, waves, indices, covered, known) && i < |hints|
    requires !HintOk(hints[i]) || hints[i].index.value in indices
    ensures !Usable(hints, nodes)
  {
    hide Tally;
    if HintOk(hints[i]) {
      var k :| 0 <= k < i && waves[k].index == hints[i].index.value;
      assert AsWaves(hints)[k].index == AsWaves(hints)[i].index;
    }
  }

  lemma AcceptIds(hints: seq<Hint>, i: nat, waves: seq<Wave>, indices: set<int>, covered: set<Id>, nodes: seq<Node>)
    requires Accepting(hints, i, waves, indices, covered, GraphOf(nodes).Keys) && i < |hints|
    requires !(multiset(covered) + multiset(hints[i].ids) <= multiset(GraphOf(nodes).Keys))
    ensures !Usable(hints, nodes)
  {
    hide Tally;
    var all := AsWaves(hints);
    assert all[..i + 1] == all[..i] + [all[i]];
    TallySnoc(all[..i], all[i]);
    TallyPrefix(all, i + 1);
  }

  lemma AcceptStep(hints: seq<Hint>, i: nat, waves: seq<Wave>, indices: set<int>, covered: set<Id>, next: set<Id>, known: set<Id>)
    requires Accepting(hints, i, waves, indices, covered, known) && i < |hints| && HintOk(hints[i])
    requires hints[i].index.value !in indices && next <= known && multiset(next) == multiset(covered) + multiset(hints[i].ids)
    ensures Accepting(hints, i + 1, waves + [AsWave(hints[i])], indices + {hints[i].index.value}, next, known)
  {
    hide Tally;
    var all := AsWaves(hints);
    assert all[..i + 1] == all[..i] + [all[i]];
    TallySnoc(waves, AsWave(hints[i]));
    var w, more := waves + [AsWave(hints[i])], indices + {hints[i].index.value};
    forall x ensures x in more <==> exists k :: 0 <= k < i + 1 && w[k].index == x {
      if x == hints[i].index.value { assert w[i].index == x; }
      if k :| 0 <= k < i && waves[k].index == x { assert w[k].index == x; }
    }
  }

  lemma AcceptNothing(hints: seq<Hint>, known: set<Id>)
    ensures Accepting(hints, 0, [], {}, {}, known)
  {}

  lemma AcceptDone(hints: seq<Hint>, waves: seq<Wave>, indices: set<int>, covered: set<Id>, nodes: seq<Node>)
    requires Accepting(hints, |hints|, waves, indices, covered, GraphOf(nodes).Keys) && hints != []
    ensures waves == AsWaves(hints) && (|covered| == |nodes| <==> Usable(hints, nodes))
  {
    hide Tally;
    assert AsWaves(hints)[..|hints|] == AsWaves(hints);
    CoveredAll(covered, GraphOf(nodes).Keys, nodes);
  }

  /** The waves of a hint as they come, unless one is unusable or not all nodes are covered. */
  method AcceptHint(hints: seq<Hint>, nodes: seq<Node>) returns (waves: seq<Wave>, ok: bool)
    ensures ok <==> Usable(hints, nodes)
    ensures ok ==> waves == AsWaves(hints)
    ensures ok <==>
              && hints != [] && (forall k :: 0 <= k < |hints| ==>
                   hints[k].ids != [] && hints[k].index.Some? && 0 <= hints[k].index.value <= 9007199254740991)
              && (forall j, k :: 0 <= j < k < |hints| ==> hints[j].index != hints[k].index)
              && Partition(GraphOf(nodes), AsWaves(hints)) && |GraphOf(nodes)| == |nodes|
    ensures ok ==> |waves| == |hints| > 0 && forall k :: 0 <= k < |hints| ==>
              && hints[k].index == Some(waves[k].index) && 0 <= waves[k].index <= 9007199254740991
              && waves[k].ids == hints[k].ids != [] && forall j :: 0 <= j < k ==> waves[j].index != waves[k].index
  {
    hide Accepting, Usable, AsWaves;
    if hints == [] {
      NoHints(nodes);
      return [], false;
    }
    var known := KnownIds(nodes);
    var indices: set<int> := {};
    var covered: set<Id> := {};
    waves := [];
    AcceptNothing(hints, known);
    for i := 0 to |hints|
      invariant covered <= known && Accepting(hints, i, waves, indices, covered, known)
    {
      var h := hints[i];
      if h.ids == [] || h.index.None? || h.index.value < 0 || h.index.value > MaxSafeIndex || h.index.value in indices {
        AcceptIndex(hints, i, waves, indices, covered, known, nodes);
        UsableExact(hints, nodes);
        return [], false;
      }
      var next, fine := CoverIds(h.ids, known, covered);
      if !fine {
        AcceptIds(hints, i, waves, indices, covered, nodes);
        UsableExact(hints, nodes);
        return [], false;
      }
      AcceptStep(hints, i, waves, indices, covered, next, known);
      indices := indices + {h.index.value};
      covered := next;
      waves := waves + [Wave(h.index.value, h.ids)];
    }
    AcceptDone(hints, waves, indices, covered, nodes);
    ok := |covered| == |nodes|;
    UsableExact(hints, nodes);
    if ok { UsableMeans(hints, nodes); }
  }

  lemma UsableExact(hints: seq<Hint>, nodes: seq<Node>)
    ensures Usable(hints, nodes) <==>
              && hints != [] && (forall k :: 0 <= k < |hints| ==>
                   hints[k].ids != [] && hints[k].index.Some? && 0 <= hints[k].index.value <= 9007199254740991)
              && (forall j, k :: 0 <= j < k < |hints| ==> hints[j].index != hints[k].index)
              && Partition(GraphOf(nodes), AsWaves(hints)) && |GraphOf(nodes)| == |nodes|
  {
    hide Partition;
    if forall k :: 0 <= k < |hints| ==> HintOk(hints[k]) {
      assert forall k :: 0 <= k < |hints| ==> AsWaves(hints)[k].index == hints[k].index.value;
      assert DistinctIndices(AsWaves(hints)) <==> forall j, k :: 0 <= j < k < |hints| ==> hints[j].index != hints[k].index;
    }
  }

  lemma UsableMeans(hints: seq<Hint>, nodes: seq<Node>)
    requires Usable(hints, nodes)
    ensures var waves := AsWaves(hints);
            hints != [] && forall k :: 0 <= k < |hints| ==>
              && hints[k].index == Some(waves[k].index) && 0 <= waves[k].index <= 9007199254740991
              && waves[k].ids == hints[k].ids != [] && forall j :: 0 <= j < k ==> waves[j].index != waves[k].index
  {
    hide Tally;
  }

  lemma NoHints(nodes: seq<Node>)
    ensures !Usable([], nodes)
  {}

  lemma CoveredAll(covered: set<Id>, known: set<Id>, nodes: seq<Node>)
    requires covered <= known && known == GraphOf(nodes).Keys
    ensures |covered| == |nodes| <==> multiset(covered) == multiset(known) && |GraphOf(nodes)| == |nodes|
  {
    GraphSmall(nodes);
    assert |known| == |GraphOf(nodes)|;
    if multiset(covered) == multiset(known) {
      forall id | id in known ensures id in covered { assert id in multiset(covered); }
      assert covered == known;
    }
    if |covered| == |nodes| { Subset(covered, known); }
  }

  lemma Subset(a: set<Id>, b: set<Id>)
    requires a <= b && |a| >= |b|
    ensures a == b
  {
    if id :| id in b && id !in a {
      assert a <= b - {id};
      SubsetSmall(a, b - {id});
    }
  }

  lemma {:induction false} SubsetSmall(a: set<Id>, b: set<Id>)
    requires a <= b
    ensures |a| <= |b|
    decreases a
  {
    if a != {} {
      var x :| x in a;
      SubsetSmall(a - {x}, b - {x});
    }
  }

  lemma {:induction false} GraphSmall(nodes: seq<Node>)
    ensures |GraphOf(nodes)| <= |nodes|
  {
    if nodes != [] {
      var n := |nodes| - 1;
      GraphSmall(nodes[..n]);
      var g, id := GraphOf(nodes[..n]), nodes[n].id;
      assert GraphOf(nodes).Keys == g.Keys + {id};
      assert |g.Keys| == |g| && |GraphOf(nodes).Keys| == |GraphOf(nodes)|;
    }
  }

  method KnownIds(nodes: seq<Node>) returns (known: set<Id>)
    ensures known == GraphOf(nodes).Keys
  {
    known := {};
    for i := 0 to |nodes|
      invariant known == GraphOf(nodes[..i]).Keys
    {
      assert nodes[..i + 1][..i] == nodes[..i];
      known := known + {nodes[i].id};
    }
    assert nodes[..|nodes|] == nodes;
  }

  predicate ByIndex(w: seq<Wave>)
  {
    forall i, j :: 0 <= i < j < |w| ==> w[i].index <= w[j].index
  }

  /** A stable insertion by index. */
  method SortWaves(waves: seq<Wave>) returns (sorted: seq<Wave>)
    ensures ByIndex(sorted) && multiset(sorted) == multiset(waves) && Tally(sorted) == Tally(waves)
  {
    hide Tally;
    sorted := [];
    for i := 0 to |waves|
      invariant ByIndex(sorted) && multiset(sorted) == multiset(waves[..i]) && Tally(sorted) == Tally(waves[..i])
    {
      assert waves[..i + 1] == waves[..i] + [waves[i]];
      TallySnoc(waves[..i], waves[i]);
      sorted := InsertWave(sorted, waves[i]);
    }
    assert waves[..|waves|] == waves;
  }

  lemma WaveInserted(a: seq<Wave>, w: Wave, b: seq<Wave>)
    ensures Tally(a + [w] + b) == Tally(a + b) + multiset(w.ids)
    ensures multiset(a + [w] + b) == multiset(a + b) + multiset{w}
  {
    hide Tally;
    TallyConcat(a, b);
    TallySnoc(a, w);
    TallyConcat(a + [w], b);
  }

  method InsertWave(sorted: seq<Wave>, w: Wave) returns (r: seq<Wave>)
    requires ByIndex(sorted)
    ensures ByIndex(r) && multiset(r) == multiset(sorted) + multiset{w} && Tally(r) == Tally(sorted) + multiset(w.ids)
  {
    hide Tally, ByIndex;
    var j := |sorted|;
    while j > 0 && w.index < sorted[j - 1].index
      invariant 0 <= j <= |sorted| && (j < |sorted| ==> w.index < sorted[j].index)
    {
      j := j - 1;
    }
    assert sorted == sorted[..j] + sorted[j..];
    WaveInserted(sorted[..j], w, sorted[j..]);
    ByIndexInserted(sorted, j, w);
    r := sorted[..j] + [w] + sorted[j..];
  }

  lemma ByIndexInserted(sorted: seq<Wave>, j: nat, w: Wave)
    requires ByIndex(sorted) && j <= |sorted| && (j > 0 ==> sorted[j - 1].index <= w.index)
    requires j < |sorted| ==> w.index < sorted[j].index
    ensures ByIndex(sorted[..j] + [w] + sorted[j..])
  {
    var r := sorted[..j] + [w] + sorted[j..];
    forall a, b | 0 <= a < b < |r| ensures r[a].index <= r[b].index {
      assert r[a] == if a < j then sorted[a] else if a == j then w else sorted[a - 1];
      assert r[b] == if b < j then sorted[b] else if b == j then w else sorted[b - 1];
    }
  }

  /** The stored layout in index order if it is usable, otherwise the computed one. */
  method StoredWaves(hint: Option<seq<Hint>>, nodes: seq<Node>) returns (waves: seq<Wave>)
    ensures Partition(GraphOf(nodes), waves)
    ensures hint.Some? && Usable(hint.value, nodes) ==> ByIndex(waves) && multiset(waves) == multiset(AsWaves(hint.value))
    ensures hint.None? || !Usable(hint.value, nodes) ==> IsLayout(GraphOf(nodes), waves)
  {
    hide Tally, IsLayout;
    if hint.Some? {
      var accepted, ok := AcceptHint(hint.value, nodes);
      if ok {
        waves := SortWaves(accepted);
        return;
      }
    }
    waves := ComputeWaves(nodes);
  }
}
