// Things that wait for others: each is mapped to what must come before it.
// The removal order and the causal check rest on it.
module Graphs {
  import opened Extremes

  // What is waited for and is no thing of the graph holds nothing up.
  type Waits<!T> = map<T, set<T>>

  // Each thing of the walk waits for the next.
  ghost predicate Walk<T>(g: Waits<T>, p: seq<T>) {
    && (forall i :: 0 <= i < |p| ==> p[i] in g)
    && (forall i :: 0 < i < |p| ==> p[i] in g[p[i - 1]])
  }

  ghost predicate Loop<T>(g: Waits<T>, p: seq<T>) { |p| > 1 && Walk(g, p) && p[0] == p[|p| - 1] }

  ghost predicate Cyclic<T(!new)>(g: Waits<T>) { exists p :: Loop(g, p) }

  ghost predicate Ready<T>(g: Waits<T>, left: set<T>, t: T) { t in left && t in g && g[t] * left == {} }

  lemma {:induction false} Repeats<T>(p: seq<T>, s: set<T>)
    requires |p| > |s| && forall i :: 0 <= i < |p| ==> p[i] in s
    ensures exists i, j :: 0 <= i < j < |p| && p[i] == p[j]
  {
    var last := p[|p| - 1];
    if i :| 0 <= i < |p| - 1 && p[i] == last {
      assert p[i] == p[|p| - 1];
    } else {
      var rest := p[..|p| - 1];
      forall i | 0 <= i < |rest| ensures rest[i] in s - {last} { assert rest[i] == p[i]; }
      Repeats(rest, s - {last});
      var i, j :| 0 <= i < j < |rest| && rest[i] == rest[j];
      assert p[i] == p[j];
    }
  }

  ghost function WalkOn<T>(g: Waits<T>, left: set<T>, n: nat): (p: seq<T>)
    requires left != {} && left <= g.Keys && forall t :: t in left ==> g[t] * left != {}
    ensures |p| == n + 1 && Walk(g, p) && forall i :: 0 <= i < |p| ==> p[i] in left
  {
    if n == 0 then [Pick(left)]
    else
      var p := WalkOn(g, left, n - 1);
      p + [Pick(g[p[|p| - 1]] * left)]
  }

  lemma {:induction false} StuckIsCyclic<T(!new)>(g: Waits<T>, left: set<T>)
    requires left != {} && left <= g.Keys && forall t :: t in left ==> g[t] * left != {}
    ensures Cyclic(g)
  {
    var p := WalkOn(g, left, |left|);
    Repeats(p, left);
    var i, j :| 0 <= i < j < |p| && p[i] == p[j];
    assert Loop(g, p[i..j + 1]);
  }

  // Where nothing waits in a circle, whatever is left has one that waits for
  // nothing left.
  lemma {:induction false} SomeReady<T(!new)>(g: Waits<T>, left: set<T>)
    requires !Cyclic(g) && left != {} && left <= g.Keys
    ensures exists t :: Ready(g, left, t)
  {
    if forall t :: t in left ==> g[t] * left != {} {
      StuckIsCyclic(g, left);
    } else {
      var t :| t in left && g[t] * left == {};
      assert Ready(g, left, t);
    }
  }

  // An order of what is left, each after all it waits for that is left.
  ghost predicate After<T(!new)>(g: Waits<T>, left: set<T>, order: seq<T>)
    requires left <= g.Keys
  {
    && (forall t :: t in order <==> t in left)
    && (forall i, j :: 0 <= i < j < |order| ==> order[i] != order[j] && order[j] !in g[order[i]])
    && (forall i :: 0 <= i < |order| ==> order[i] !in g[order[i]])
  }

  // An order of all the things.
  ghost predicate Ordered<T(!new)>(g: Waits<T>, order: seq<T>) { After(g, g.Keys, order) }

  lemma {:induction false} WalkGoesBack<T(!new)>(g: Waits<T>, order: seq<T>, p: seq<T>, at: nat, end: nat)
    requires Ordered(g, order) && Walk(g, p) && |p| > 1
    requires at < |order| && end < |order| && order[at] == p[0] && order[end] == p[|p| - 1]
    ensures end < at
  {
    var less := p[..|p| - 1];
    assert forall i :: 0 <= i < |less| ==> less[i] == p[i];
    assert less[|less| - 1] in order;
    var mid :| 0 <= mid < |order| && order[mid] == less[|less| - 1];
    assert order[end] in g[order[mid]];
    assert end < mid;
    if |p| > 2 {
      WalkGoesBack(g, order, less, at, mid);
    }
  }

  lemma {:induction false} OrderedIsAcyclic<T(!new)>(g: Waits<T>, order: seq<T>)
    requires Ordered(g, order)
    ensures !Cyclic(g)
  {
    if p :| Loop(g, p) {
      assert p[0] in order;
      var at :| 0 <= at < |order| && order[at] == p[0];
      WalkGoesBack(g, order, p, at, at);
    }
  }

  lemma {:induction false} ReadyFirst<T(!new)>(g: Waits<T>, left: set<T>, t: T, rest: seq<T>)
    requires left <= g.Keys && Ready(g, left, t) && After(g, left - {t}, rest)
    ensures After(g, left, [t] + rest)
  {
    assert forall u :: u in left ==> u !in g[t] * left;
    forall i | 0 <= i < |rest| ensures rest[i] != t && rest[i] !in g[t] && ([t] + rest)[i + 1] == rest[i] {
      assert rest[i] in rest;
    }
  }

  // What is left, each after all it waits for that is left.
  ghost function InOrder<T(!new)>(g: Waits<T>, left: set<T>): (order: seq<T>)
    requires !Cyclic(g) && left <= g.Keys
    ensures After(g, left, order)
    decreases |left|
  {
    if left == {} then []
    else
      SomeReady(g, left);
      var t :| Ready(g, left, t);
      ReadyFirst(g, left, t, InOrder(g, left - {t}));
      [t] + InOrder(g, left - {t})
  }

  // There is such an order exactly where nothing waits in a circle.
  lemma {:induction false} OrderedExactly<T(!new)>(g: Waits<T>)
    ensures (exists order :: Ordered(g, order)) <==> !Cyclic(g)
  {
    if !Cyclic(g) {
      assert Ordered(g, InOrder(g, g.Keys));
    } else if order :| Ordered(g, order) {
      OrderedIsAcyclic(g, order);
    }
  }
}
