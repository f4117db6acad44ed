// What each action of a plan waits for, and whether they can be put in order
// (`migkit/action_compiler.py`).
module Causal {
  import opened Graphs
  import opened Names

  datatype Action = Action(id: Name, prerequisites: seq<Name>, posts: seq<Name>)

  type Deps = map<Name, seq<Name>>

  // What each waits for, of those that are there.
  function Graph(deps: Deps): (g: Waits<Name>)
    ensures g.Keys == deps.Keys
    ensures forall n, p :: n in deps ==> (p in g[n] <==> p in deps[n] && p in deps)
  {
    map n | n in deps :: set p | p in deps[n] && p in deps
  }

  // ---- Is there a circle

  // The predecessors that are there and not done, counted as often as named.
  function Waiting(preds: seq<Name>, there: set<Name>, done: set<Name>): nat {
    if preds == [] then 0
    else Waiting(preds[..|preds| - 1], there, done) + (if preds[|preds| - 1] in there - done then 1 else 0)
  }

  lemma {:induction false} DoneOneMore(preds: seq<Name>, there: set<Name>, done: set<Name>, c: Name)
    requires c in there && c !in done
    ensures Waiting(preds, there, done) == Waiting(preds, there, done + {c}) + multiset(preds)[c]
  {
    if preds != [] {
      assert preds == preds[..|preds| - 1] + [preds[|preds| - 1]];
      DoneOneMore(preds[..|preds| - 1], there, done, c);
    }
  }

  lemma {:induction false} WaitingNone(preds: seq<Name>, there: set<Name>, done: set<Name>)
    ensures Waiting(preds, there, done) == 0 <==> forall p :: p in preds && p in there ==> p in done
  {
    if preds != [] {
      assert preds == preds[..|preds| - 1] + [preds[|preds| - 1]];
      WaitingNone(preds[..|preds| - 1], there, done);
    }
  }

  // Of the predecessors gone through so far: how many each waits for, and who
  // waits for whom.
  ghost predicate Degrees(seen: Deps, degree: map<Name, nat>) {
    degree.Keys == seen.Keys && forall n :: n in seen ==> degree[n] == Waiting(seen[n], seen.Keys, {})
  }

  ghost predicate Neighbours(seen: Deps, adj: map<Name, seq<Name>>) {
    && adj.Keys == seen.Keys
    && (forall n, p :: n in seen && p in seen ==> multiset(adj[p])[n] == multiset(seen[n])[p])
    && (forall p, n :: p in seen && n in adj[p] ==> n in seen)
  }

  lemma {:induction false} DegreesMore(seen: Deps, degree: map<Name, nat>, node: Name, pred: Name)
    requires Degrees(seen, degree) && node in seen
    ensures Degrees(seen[node := seen[node] + [pred]], if pred in seen then degree[node := degree[node] + 1] else degree)
  {
    var preds := seen[node] + [pred];
    assert preds[..|preds| - 1] == seen[node];
    assert seen[node := preds].Keys == seen.Keys;
  }

  lemma {:induction false} CountedIn(s: seq<Name>, x: Name, y: Name)
    ensures multiset(s + [x])[y] == multiset(s)[y] + if x == y then 1 else 0
    ensures y in s + [x] ==> y in s || y == x
  {
  }

  lemma {:induction false} NeighboursMore(seen: Deps, adj: map<Name, seq<Name>>, node: Name, pred: Name)
    requires Neighbours(seen, adj) && node in seen
    ensures Neighbours(seen[node := seen[node] + [pred]], if pred in adj then adj[pred := adj[pred] + [node]] else adj)
  {
    var more, now := seen[node := seen[node] + [pred]], if pred in adj then adj[pred := adj[pred] + [node]] else adj;
    forall n, p | n in seen && p in seen ensures multiset(now[p])[n] == multiset(more[n])[p] {
      CountedIn(seen[node], pred, p);
      CountedIn(adj[p], node, n);
      assert multiset(seen[n])[p] == multiset(adj[p])[n];
    }
    forall p, n | p in seen && n in now[p] ensures n in seen {
      CountedIn(adj[p], node, n);
    }
  }

  // ---- Taking the nodes that wait for none

  ghost predicate Halfway(deps: Deps, degree: map<Name, nat>, queue: seq<Name>, done: set<Name>) {
    && degree.Keys == deps.Keys && done <= deps.Keys
    && (forall n :: n in deps ==> degree[n] == Waiting(deps[n], deps.Keys, done))
    && (forall n :: n in deps ==> (degree[n] == 0 <==> n in done || n in queue))
    && (forall n :: n in queue ==> n in deps && n !in done)
    && (forall i, j :: 0 <= i < j < |queue| ==> queue[i] != queue[j])
  }

  // The neighbours of `curr` gone through, the first i of them.
  ghost predicate Passing(deps: Deps, degree: map<Name, nat>, queue: seq<Name>, done: set<Name>, rest: seq<Name>) {
    && degree.Keys == deps.Keys && done <= deps.Keys
    && (forall n :: n in deps ==> degree[n] == Waiting(deps[n], deps.Keys, done) + multiset(rest)[n])
    && (forall n :: n in deps ==> (degree[n] == 0 <==> n in done || n in queue))
    && (forall n :: n in queue ==> n in deps && n !in done)
    && (forall i, j :: 0 <= i < j < |queue| ==> queue[i] != queue[j])
    && (forall n :: n in rest ==> n in deps)
  }

  lemma {:induction false} StartPassing(deps: Deps, degree: map<Name, nat>, queue: seq<Name>, done: set<Name>, adj: map<Name, seq<Name>>)
    requires queue != [] && Halfway(deps, degree, queue, done)
    requires Neighbours(deps, adj)
    ensures Passing(deps, degree, queue[1..], done + {queue[0]}, adj[queue[0]])
  {
    var curr := queue[0];
    forall n | n in deps
      ensures degree[n] == Waiting(deps[n], deps.Keys, done + {curr}) + multiset(adj[curr])[n]
    {
      DoneOneMore(deps[n], deps.Keys, done, curr);
    }
    assert queue == [curr] + queue[1..];
  }

  lemma {:induction false} PassOne(deps: Deps, degree: map<Name, nat>, queue: seq<Name>, done: set<Name>, all: seq<Name>, i: nat)
    requires i < |all| && Passing(deps, degree, queue, done, all[i..])
    ensures all[i] in degree && degree[all[i]] > 0
    ensures var less := degree[all[i] := degree[all[i]] - 1];
            Passing(deps, less, if less[all[i]] == 0 then queue + [all[i]] else queue, done, all[i + 1..])
  {
    RestIs(all, i);
    PassFirst(deps, degree, queue, done, all[i], all[i..], all[i + 1..]);
  }

  lemma {:induction false} RestIs(all: seq<Name>, i: nat)
    requires i < |all|
    ensures multiset(all[i..]) == multiset(all[i + 1..]) + multiset{all[i]}
    ensures forall m :: m in all[i..] <==> m == all[i] || m in all[i + 1..]
  {
    assert all[i..] == [all[i]] + all[i + 1..];
  }

  lemma {:induction false} PassFirst(deps: Deps, degree: map<Name, nat>, queue: seq<Name>, done: set<Name>, n: Name, rest: seq<Name>, after: seq<Name>)
    requires multiset(rest) == multiset(after) + multiset{n} && (forall m :: m in rest <==> m == n || m in after)
    requires Passing(deps, degree, queue, done, rest)
    ensures n in degree && degree[n] > 0
    ensures var less := degree[n := degree[n] - 1];
            Passing(deps, less, if less[n] == 0 then queue + [n] else queue, done, after)
  {
    assert n in rest;
  }

  lemma {:induction false} DonePassing(deps: Deps, degree: map<Name, nat>, queue: seq<Name>, done: set<Name>)
    requires Passing(deps, degree, queue, done, [])
    ensures Halfway(deps, degree, queue, done)
  {
  }

  method Pass(deps: Deps, degree0: map<Name, nat>, queue0: seq<Name>, ghost done: set<Name>, neighbours: seq<Name>)
    returns (degree: map<Name, nat>, queue: seq<Name>)
    requires Passing(deps, degree0, queue0, done, neighbours)
    ensures Halfway(deps, degree, queue, done)
  {
    degree, queue := degree0, queue0;
    assert neighbours[0..] == neighbours;
    for i := 0 to |neighbours|
      invariant Passing(deps, degree, queue, done, neighbours[i..])
    {
      var n := neighbours[i];
      PassOne(deps, degree, queue, done, neighbours, i);
      degree := degree[n := degree[n] - 1];
      if degree[n] == 0 {
        queue := queue + [n];
      }
    }
    DonePassing(deps, degree, queue, done);
  }

  method CountNode(deps: Deps, ghost seen0: Deps, node: Name, degree0: map<Name, nat>, adj0: map<Name, seq<Name>>)
    returns (degree: map<Name, nat>, adj: map<Name, seq<Name>>)
    requires node in deps && node in seen0 && seen0[node] == []
    requires Degrees(seen0, degree0) && Neighbours(seen0, adj0)
    ensures Degrees(seen0[node := deps[node]], degree) && Neighbours(seen0[node := deps[node]], adj)
  {
    degree, adj := degree0, adj0;
    var preds := deps[node];
    assert seen0[node := preds[..0]] == seen0;
    for i := 0 to |preds|
      invariant Degrees(seen0[node := preds[..i]], degree) && Neighbours(seen0[node := preds[..i]], adj)
    {
      var pred := preds[i];
      DegreesMore(seen0[node := preds[..i]], degree, node, pred);
      NeighboursMore(seen0[node := preds[..i]], adj, node, pred);
      OneMore(preds, i);
      SetTwice(seen0, node, preds[..i], preds[..i + 1]);
      if pred in adj {
        adj := adj[pred := adj[pred] + [node]];
        degree := degree[node := degree[node] + 1];
      }
    }
    assert preds[..|preds|] == preds;
  }

  lemma {:induction false} SetTwice(seen: Deps, node: Name, a: seq<Name>, b: seq<Name>)
    ensures seen[node := a][node := b] == seen[node := b]
  {
  }

  // The predecessors of the first k nodes.
  ghost function SeenTo(deps: Deps, nodes: seq<Name>, k: nat): Deps
    requires k <= |nodes|
  {
    map n | n in deps :: if n in nodes[..k] then deps[n] else []
  }

  lemma {:induction false} SeenOne(deps: Deps, nodes: seq<Name>, k: nat)
    requires k < |nodes| && nodes[k] in deps
    requires forall i, j :: 0 <= i < j < |nodes| ==> nodes[i] != nodes[j]
    ensures SeenTo(deps, nodes, k)[nodes[k]] == []
    ensures SeenTo(deps, nodes, k)[nodes[k] := deps[nodes[k]]] == SeenTo(deps, nodes, k + 1)
  {
    OneMore(nodes, k);
  }

  method Count(deps: Deps, nodes: seq<Name>) returns (degree: map<Name, nat>, adj: map<Name, seq<Name>>)
    requires forall i :: 0 <= i < |nodes| ==> nodes[i] in deps
    requires forall i, j :: 0 <= i < j < |nodes| ==> nodes[i] != nodes[j]
    ensures Degrees(SeenTo(deps, nodes, |nodes|), degree) && Neighbours(SeenTo(deps, nodes, |nodes|), adj)
  {
    degree := map n | n in deps :: 0;
    adj := map n | n in deps :: [];
    for k := 0 to |nodes|
      invariant Degrees(SeenTo(deps, nodes, k), degree) && Neighbours(SeenTo(deps, nodes, k), adj)
    {
      SeenOne(deps, nodes, k);
      degree, adj := CountNode(deps, SeenTo(deps, nodes, k), nodes[k], degree, adj);
    }
  }

  lemma {:induction false} SeenAll(deps: Deps, nodes: seq<Name>)
    requires forall n :: n in deps ==> n in nodes
    ensures SeenTo(deps, nodes, |nodes|) == deps
  {
    assert nodes[..|nodes|] == nodes;
  }

  // The nodes that wait for none to begin with.
  method Free(deps: Deps, nodes: seq<Name>, degree: map<Name, nat>) returns (queue: seq<Name>)
    requires (forall n :: n in nodes <==> n in deps) && Degrees(deps, degree)
    requires forall i, j :: 0 <= i < j < |nodes| ==> nodes[i] != nodes[j]
    ensures Halfway(deps, degree, queue, {})
  {
    queue := [];
    for k := 0 to |nodes|
      invariant forall n :: n in queue <==> n in nodes[..k] && degree[n] == 0
      invariant forall i, j :: 0 <= i < j < |queue| ==> queue[i] != queue[j]
    {
      OneMore(nodes, k);
      if degree[nodes[k]] == 0 {
        queue := queue + [nodes[k]];
      }
    }
    assert nodes[..|nodes|] == nodes;
  }

  // ---- The check itself

  ghost predicate Done(g: Waits<Name>, order: seq<Name>) {
    && (forall i :: 0 <= i < |order| ==> order[i] in g)
    && (forall i, j :: 0 <= i < j < |order| ==> order[i] != order[j])
    && (forall i, p :: 0 <= i < |order| && p in g[order[i]] ==> p in order[..i])
  }

  lemma {:induction false} DoneMore(deps: Deps, degree: map<Name, nat>, queue: seq<Name>, order: seq<Name>)
    requires queue != [] && Done(Graph(deps), order) && Halfway(deps, degree, queue, These(order))
    ensures Done(Graph(deps), order + [queue[0]])
  {
    var n, done := queue[0], These(order);
    assert n in queue;
    WaitingNone(deps[n], deps.Keys, done);
    var more, g := order + [n], Graph(deps);
    forall i, p | 0 <= i < |more| && p in g[more[i]] ensures p in more[..i] {
      if i < |order| {
        assert more[..i] == order[..i];
      } else {
        assert more[..i] == order && p in done;
      }
    }
  }

  // All done: the order they were done in is one. Not all: none of those
  // left waits for nothing left.
  lemma {:induction false} AllDoneExactly(deps: Deps, degree: map<Name, nat>, order: seq<Name>)
    requires Done(Graph(deps), order) && Halfway(deps, degree, [], These(order))
    ensures |order| == |deps| <==> !Cyclic(Graph(deps))
  {
    var g, done := Graph(deps), These(order);
    DistinctSize(order);
    if done == deps.Keys {
      forall i, j | 0 <= i <= j < |order| ensures order[j] !in g[order[i]] {
        assert forall k :: 0 <= k < i ==> order[..i][k] != order[j];
      }
      assert Ordered(g, order);
      OrderedIsAcyclic(g, order);
    } else {
      var left := deps.Keys - done;
      SubsetSize(done, deps.Keys);
      forall t | t in left ensures !Ready(g, left, t) {
        WaitingNone(deps[t], deps.Keys, done);
        var p :| p in deps[t] && p in deps.Keys && p !in done;
        assert p in g[t] * left;
      }
      if !Cyclic(g) {
        SomeReady(g, left);
      }
    }
  }

  lemma {:induction false} DistinctSize(order: seq<Name>)
    requires forall i, j :: 0 <= i < j < |order| ==> order[i] != order[j]
    ensures |These(order)| == |order|
  {
    if order != [] {
      var less := order[..|order| - 1];
      DistinctSize(less);
      assert These(order) == These(less) + {order[|order| - 1]};
    }
  }

  lemma {:induction false} SubsetSize(a: set<Name>, b: set<Name>)
    requires a <= b && a != b
    ensures |a| < |b| && b - a != {}
  {
    assert b == a + (b - a);
  }

  // True exactly where no node waits, through however many others, for itself.
  method IsAcyclic(deps: Deps) returns (acyclic: bool)
    ensures acyclic <==> !Cyclic(Graph(deps))
  {
    var nodes := Listed(deps.Keys);
    var degree, adj := Count(deps, nodes);
    SeenAll(deps, nodes);
    var queue := Free(deps, nodes, degree);
    ghost var order: seq<Name>, done := [], {};
    var visited := 0;
    assert These(order) == done;
    while queue != []
      invariant visited == |order| && done == These(order) && Done(Graph(deps), order)
      invariant Halfway(deps, degree, queue, done)
      decreases |deps| - |order|
    {
      var curr := queue[0];
      DoneMore(deps, degree, queue, order);
      NotAllYet(deps, queue, order);
      StartPassing(deps, degree, queue, done, adj);
      OneMoreOf(order, curr);
      order, done, visited := order + [curr], done + {curr}, visited + 1;
      degree, queue := Pass(deps, degree, queue[1..], done, adj[curr]);
    }
    AllDoneExactly(deps, degree, order);
    return visited == |deps|;
  }

  lemma {:induction false} NotAllYet(deps: Deps, queue: seq<Name>, order: seq<Name>)
    requires queue != [] && queue[0] in deps && queue[0] !in order
    requires Done(Graph(deps), order)
    ensures |order| < |deps|
  {
    DistinctSize(order);
    assert queue[0] !in These(order);
    SubsetSize(These(order), deps.Keys);
  }
}
