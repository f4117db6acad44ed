// The order archived tables leave the source in: children before the tables
// they name (`migkit/archive.py`).
module RemovalOrder {
  import opened Graphs
  import opened Names

  // A key of `child` that names rows of `parent`.
  datatype Edge = Edge(child: Name, parent: Name)

  // What must leave before each table: the other tables that name it.
  function Before(names: seq<Name>, edges: seq<Edge>): (g: Waits<Name>)
    ensures forall t :: t in g <==> t in names
    ensures forall t, c :: t in names ==> (c in g[t] <==> c != t && Edge(c, t) in edges)
  {
    map t | t in names :: set e | e in edges && e.parent == t && e.child != t :: e.child
  }

  // The next to leave: of those that wait for nothing left - of all that are
  // left, where none does - the first by name.
  ghost predicate Next(g: Waits<Name>, left: set<Name>, t: Name) {
    && t in left && t in g
    && (if exists u :: Ready(g, left, u)
        then Ready(g, left, t) && forall u :: Ready(g, left, u) ==> AtMost(t, u)
        else forall u :: u in left ==> AtMost(t, u))
  }

  ghost predicate Leaves(g: Waits<Name>, out: seq<Name>, left: set<Name>) {
    forall i :: 0 <= i < |out| ==> Next(g, These(out[i..]) + left, out[i])
  }

  method FirstReady(g: Waits<Name>, left: seq<Name>) returns (t: Name)
    requires left != [] && Sorted(left) && These(left) <= g.Keys
    ensures Next(g, These(left), t)
  {
    for i := 0 to |left|
      invariant forall j :: 0 <= j < i ==> !Ready(g, These(left), left[j])
    {
      if g[left[i]] * These(left) == {} {
        forall u | Ready(g, These(left), u) ensures AtMost(left[i], u) {
          var j :| 0 <= j < |left| && left[j] == u;
          Total(u, u);
        }
        assert Ready(g, These(left), left[i]);
        return left[i];
      }
    }
    Total(left[0], left[0]);
    return left[0];
  }

  function Without(left: seq<Name>, t: Name): (r: seq<Name>)
    requires t in left
    ensures multiset(r) + multiset{t} == multiset(left) && |r| < |left|
    ensures forall x :: x in r ==> x in left
  {
    if left[0] == t then
      assert left == [left[0]] + left[1..];
      left[1..]
    else
      assert left == [left[0]] + left[1..];
      [left[0]] + Without(left[1..], t)
  }

  lemma {:induction false} WithoutSorted(left: seq<Name>, t: Name)
    requires t in left && Sorted(left)
    ensures Sorted(Without(left, t))
  {
    if left[0] != t {
      WithoutSorted(left[1..], t);
      forall x | x in Without(left[1..], t) ensures AtMost(left[0], x) {
        var k :| 0 <= k < |left| - 1 && left[1..][k] == x;
        assert AtMost(left[0], left[k + 1]);
      }
    }
  }

  method Order(names: seq<Name>, edges: seq<Edge>) returns (out: seq<Name>)
    ensures multiset(out) == multiset(names)
    ensures Leaves(Before(names, edges), out, {})
  {
    var before := Before(names, edges);
    var left := Sort(names);
    out := [];
    while left != []
      invariant multiset(out) + multiset(left) == multiset(names)
      invariant Sorted(left) && Leaves(before, out, These(left))
      decreases |left|
    {
      forall t | t in left ensures t in names { assert t in multiset(out) + multiset(left); }
      var next := FirstReady(before, left);
      var rest := Without(left, next);
      WithoutSorted(left, next);
      OneMoreLeaves(before, out, left, next, rest);
      out, left := out + [next], rest;
    }
    assert These(left) == {};
  }

  lemma {:induction false} OneMoreLeaves(g: Waits<Name>, out: seq<Name>, left: seq<Name>, t: Name, rest: seq<Name>)
    requires Leaves(g, out, These(left)) && Next(g, These(left), t)
    requires multiset(rest) + multiset{t} == multiset(left)
    ensures Leaves(g, out + [t], These(rest))
  {
    var more := out + [t];
    assert forall x :: x in left <==> x in multiset(left);
    assert forall x :: x in rest <==> x in multiset(rest);
    assert These(left) == These(rest) + {t};
    forall i | 0 <= i < |more| ensures Next(g, These(more[i..]) + These(rest), more[i]) {
      if i < |out| {
        assert more[i..] == out[i..] + [t];
        assert These(more[i..]) + These(rest) == These(out[i..]) + These(left);
      } else {
        assert more[i..] == [t];
        assert These([t]) + These(rest) == These(left);
      }
    }
  }

  // Keys that name their tables in no circle: every child leaves before its
  // parent, whatever else the keys are.
  lemma {:induction false} ChildrenLeaveFirst(names: seq<Name>, edges: seq<Edge>, out: seq<Name>)
    requires multiset(out) == multiset(names) && Leaves(Before(names, edges), out, {})
    requires forall i, j :: 0 <= i < j < |names| ==> names[i] != names[j]
    requires !Cyclic(Before(names, edges))
    ensures Ordered(Before(names, edges), out)
  {
    var g := Before(names, edges);
    assert forall t :: t in names <==> t in multiset(names);
    assert forall t :: t in out <==> t in multiset(out);
    OnceEach(names, out);
    forall i, j | 0 <= i <= j < |out| ensures out[j] !in g[out[i]] {
      NoneLater(g, out, i, j);
    }
  }

  lemma {:induction false} NoneLater(g: Waits<Name>, out: seq<Name>, i: nat, j: nat)
    requires !Cyclic(g) && Leaves(g, out, {}) && i <= j < |out| && forall t :: t in out <==> t in g
    ensures out[j] !in g[out[i]]
  {
    var left := These(out[i..]) + {};
    StillLeft(g, out, i, j);
    SomeReady(g, left);
    NextIsReady(g, left, out[i]);
  }

  lemma {:induction false} StillLeft(g: Waits<Name>, out: seq<Name>, i: nat, j: nat)
    requires i <= j < |out| && forall t :: t in out <==> t in g
    ensures out[j] in These(out[i..]) + {} && These(out[i..]) + {} <= g.Keys
  {
    assert out[i..][j - i] == out[j];
  }

  lemma {:induction false} NextIsReady(g: Waits<Name>, left: set<Name>, t: Name)
    requires Next(g, left, t) && exists u :: Ready(g, left, u)
    ensures Ready(g, left, t)
  {
  }

  // The order is a good one exactly where there is one: children before
  // parents if and only if no keys run in a circle.
  lemma {:induction false} LeavesExactly(names: seq<Name>, edges: seq<Edge>, out: seq<Name>)
    requires multiset(out) == multiset(names) && Leaves(Before(names, edges), out, {})
    requires forall i, j :: 0 <= i < j < |names| ==> names[i] != names[j]
    ensures Ordered(Before(names, edges), out) <==> !Cyclic(Before(names, edges))
  {
    if Cyclic(Before(names, edges)) {
      if Ordered(Before(names, edges), out) {
        OrderedIsAcyclic(Before(names, edges), out);
      }
    } else {
      ChildrenLeaveFirst(names, edges, out);
    }
  }

  // Backwards, for the rows put back: every parent before its children.
  lemma {:induction false} ParentsReturnFirst(names: seq<Name>, edges: seq<Edge>, out: seq<Name>, e: Edge, p: nat, c: nat)
    requires Ordered(Before(names, edges), out) && e in edges && e.child != e.parent
    requires p < |out| && c < |out| && out[|out| - 1 - p] == e.parent && out[|out| - 1 - c] == e.child
    ensures p < c
  {
    assert out[|out| - 1 - p] in names && e.child in Before(names, edges)[e.parent];
  }
}
