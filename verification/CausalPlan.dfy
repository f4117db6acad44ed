// The dependencies of a plan's actions, and the order they let it be
// carried out in with every prerequisite established by then
// (`migkit/action_compiler.py`).
module CausalPlan {
  import opened Causal
  import opened Extremes
  import opened Graphs
  import opened Names

  type Facts = map<Name, bool>

  predicate Held(facts: Facts, q: Name) { q in facts && facts[q] }

  // Who establishes a fact.
  function Producers(actions: seq<Action>, q: Name): (r: set<Name>)
    ensures forall p :: p in r <==> exists a :: a in actions && q in a.posts && a.id == p
  {
    set a | a in actions && q in a.posts :: a.id
  }

  // Each action's id with each of its prerequisites, in order.
  function WantsOf(a: Action, k: nat): (w: seq<(Name, Name)>)
    requires k <= |a.prerequisites|
    ensures |w| == k && forall i :: 0 <= i < k ==> w[i] == (a.id, a.prerequisites[i])
  {
    seq(k, i requires 0 <= i < k => (a.id, a.prerequisites[i]))
  }

  function Wants(actions: seq<Action>, n: nat): (w: seq<(Name, Name)>)
    requires n <= |actions|
  {
    if n == 0 then [] else Wants(actions, n - 1) + WantsOf(actions[n - 1], |actions[n - 1].prerequisites|)
  }

  lemma {:induction false} WantsAre(actions: seq<Action>, n: nat, x: (Name, Name))
    requires n <= |actions|
    ensures x in Wants(actions, n) <==> exists i :: 0 <= i < n && actions[i].id == x.0 && x.1 in actions[i].prerequisites
  {
    if n > 0 {
      WantsAre(actions, n - 1, x);
      WantsAmong(actions[n - 1], x);
    }
  }

  lemma {:induction false} WantsAmong(a: Action, x: (Name, Name))
    ensures x in WantsOf(a, |a.prerequisites|) <==> a.id == x.0 && x.1 in a.prerequisites
  {
    var w := WantsOf(a, |a.prerequisites|);
    if a.id == x.0 && x.1 in a.prerequisites {
      var i :| 0 <= i < |w| && a.prerequisites[i] == x.1;
      assert w[i] == x;
    }
  }

  // What `id` waits for: all that establish what it wants.
  function Awaited(actions: seq<Action>, w: seq<(Name, Name)>, id: Name): set<Name> {
    if w == [] then {}
    else Awaited(actions, w[..|w| - 1], id) + if w[|w| - 1].0 == id then Producers(actions, w[|w| - 1].1) else {}
  }

  // What is wanted, is no fact and is established by none.
  function Unmet(actions: seq<Action>, facts: Facts, w: seq<(Name, Name)>): (u: seq<(Name, Name)>) {
    if w == [] then []
    else
      var x := w[|w| - 1];
      Unmet(actions, facts, w[..|w| - 1]) + Alone(actions, facts, x)
  }

  // A want by itself, where it is unmet.
  function Alone(actions: seq<Action>, facts: Facts, x: (Name, Name)): seq<(Name, Name)> {
    if Producers(actions, x.1) == {} && !Held(facts, x.1) then [x] else []
  }

  // All wants are one action's after another's.
  lemma {:induction false} WantsOnward(actions: seq<Action>, n: nat, i: nat)
    requires i < n <= |actions|
    ensures Wants(actions, i) + WantsOf(actions[i], |actions[i].prerequisites|) <= Wants(actions, n)
  {
    if i < n - 1 {
      WantsOnward(actions, n - 1, i);
      var own := WantsOf(actions[n - 1], |actions[n - 1].prerequisites|);
      assert Wants(actions, n) == Wants(actions, n - 1) + own;
      BeginsStill(Wants(actions, i) + WantsOf(actions[i], |actions[i].prerequisites|), Wants(actions, n - 1), own);
    }
  }

  lemma {:induction false} BeginsStill(a: seq<(Name, Name)>, b: seq<(Name, Name)>, c: seq<(Name, Name)>)
    requires a <= b
    ensures a <= b + c
  {
  }

  // A fact to begin with, or established by some action.
  ghost predicate Met(actions: seq<Action>, facts: Facts, q: Name) {
    (q in facts && facts[q]) || exists c :: c in actions && q in c.posts
  }

  lemma {:induction false} UnmetOne(actions: seq<Action>, facts: Facts, x: (Name, Name))
    ensures Unmet(actions, facts, [x]) == if Met(actions, facts, x.1) then [] else [x]
  {
    assert [x][..0] == [];
    if c :| c in actions && x.1 in c.posts {
      assert c.id in Producers(actions, x.1);
    }
  }

  lemma {:induction false} AwaitedBy(actions: seq<Action>, w: seq<(Name, Name)>, id: Name, p: Name)
    ensures p in Awaited(actions, w, id) <==> exists x :: x in w && x.0 == id && p in Producers(actions, x.1)
  {
    if w != [] {
      AwaitedBy(actions, w[..|w| - 1], id, p);
      assert w == w[..|w| - 1] + [w[|w| - 1]];
    }
  }

  lemma {:induction false} UnmetNone(actions: seq<Action>, facts: Facts, w: seq<(Name, Name)>)
    ensures Unmet(actions, facts, w) == [] <==> forall x :: x in w ==> Producers(actions, x.1) != {} || Held(facts, x.1)
  {
    if w != [] {
      UnmetNone(actions, facts, w[..|w| - 1]);
      assert w == w[..|w| - 1] + [w[|w| - 1]];
    }
  }

  // ---- Building them

  ghost predicate Produced(actions: seq<Action>, made: map<Name, seq<Name>>) {
    forall q :: if q in made then made[q] != [] && These(made[q]) == Producers(actions, q) else Producers(actions, q) == {}
  }

  // The action as far as the first k facts it establishes.
  function Partly(a: Action, k: nat): Action
    requires k <= |a.posts|
  {
    a.(posts := a.posts[..k])
  }

  lemma {:induction false} PartlyMore(actions: seq<Action>, a: Action, k: nat, q: Name)
    requires k < |a.posts|
    ensures Producers(actions + [Partly(a, k + 1)], q)
            == Producers(actions + [Partly(a, k)], q) + if a.posts[k] == q then {a.id} else {}
  {
    OneMore(a.posts, k);
    OneActionMore(actions, Partly(a, k), q);
    OneActionMore(actions, Partly(a, k + 1), q);
  }

  lemma {:induction false} OneActionMore(actions: seq<Action>, a: Action, q: Name)
    ensures Producers(actions + [a], q) == Producers(actions, q) + if q in a.posts then {a.id} else {}
  {
    forall p ensures p in Producers(actions + [a], q) <==> p in Producers(actions, q) || (q in a.posts && p == a.id) {
      if q in a.posts { assert a in actions + [a]; }
      if b :| b in actions && q in b.posts && b.id == p { assert b in actions + [a]; }
    }
  }

  lemma {:induction false} ProducedMore(actions: seq<Action>, a: Action, k: nat, made: map<Name, seq<Name>>)
    requires k < |a.posts| && Produced(actions + [Partly(a, k)], made)
    ensures Produced(actions + [Partly(a, k + 1)],
                     made[a.posts[k] := (if a.posts[k] in made then made[a.posts[k]] else []) + [a.id]])
  {
    var was := if a.posts[k] in made then made[a.posts[k]] else [];
    forall q {
      PartlyMore(actions, a, k, q);
    }
    OneMoreOf(was, a.id);
    assert These([]) == {};
  }

  lemma {:induction false} ProducedSame(a: seq<Action>, b: seq<Action>, made: map<Name, seq<Name>>)
    requires Produced(a, made) && forall q :: Producers(a, q) == Producers(b, q)
    ensures Produced(b, made)
  {
    forall q ensures if q in made then made[q] != [] && These(made[q]) == Producers(b, q) else Producers(b, q) == {} {
      assert Producers(a, q) == Producers(b, q);
    }
  }

  method AddPosts(ghost actions: seq<Action>, a: Action, made0: map<Name, seq<Name>>) returns (made: map<Name, seq<Name>>)
    requires Produced(actions, made0)
    ensures Produced(actions + [a], made)
  {
    made := made0;
    forall q ensures Producers(actions, q) == Producers(actions + [Partly(a, 0)], q) {
      OneActionMore(actions, Partly(a, 0), q);
    }
    ProducedSame(actions, actions + [Partly(a, 0)], made);
    for k := 0 to |a.posts|
      invariant Produced(actions + [Partly(a, k)], made)
    {
      ProducedMore(actions, a, k, made);
      var q := a.posts[k];
      made := made[q := (if q in made then made[q] else []) + [a.id]];
    }
    assert Partly(a, |a.posts|) == a;
  }

  method Establish(actions: seq<Action>) returns (made: map<Name, seq<Name>>)
    ensures Produced(actions, made)
  {
    made := map[];
    for i := 0 to |actions|
      invariant Produced(actions[..i], made)
    {
      OneMore(actions, i);
      made := AddPosts(actions[..i], actions[i], made);
    }
    assert actions[..|actions|] == actions;
  }

  // The ids that await something else than `deps` lists for them.
  ghost function Unlisted(actions: seq<Action>, w: seq<(Name, Name)>, deps: Deps): set<Name> {
    set id | id in deps && These(deps[id]) != Awaited(actions, w, id)
  }

  lemma {:induction false} ListedIs(actions: seq<Action>, w: seq<(Name, Name)>, deps: Deps, id: Name)
    requires Unlisted(actions, w, deps) == {} && id in deps
    ensures These(deps[id]) == Awaited(actions, w, id)
  {
    assert id !in Unlisted(actions, w, deps);
  }

  lemma {:induction false} ListsMore(actions: seq<Action>, w: seq<(Name, Name)>, deps: Deps, x: (Name, Name), more: seq<Name>)
    requires Unlisted(actions, w, deps) == {} && x.0 in deps && These(more) == Producers(actions, x.1)
    ensures Unlisted(actions, w + [x], deps[x.0 := deps[x.0] + more]) == {}
  {
    assert (w + [x])[..|w|] == w;
    BothThese(deps[x.0], more);
    forall id | id in deps ensures id !in Unlisted(actions, w + [x], deps[x.0 := deps[x.0] + more]) {
      ListedIs(actions, w, deps, id);
    }
  }

  lemma {:induction false} BothThese(a: seq<Name>, b: seq<Name>)
    ensures These(a + b) == These(a) + These(b)
  {
  }

  lemma {:induction false} UnmetMore(actions: seq<Action>, facts: Facts, w: seq<(Name, Name)>, x: (Name, Name))
    ensures Unmet(actions, facts, w + [x])
            == Unmet(actions, facts, w) + Alone(actions, facts, x)
  {
    assert (w + [x])[..|w|] == w;
  }

  // What is unmet is the wants that are, in their order.
  lemma {:induction false} UnmetInOrder(actions: seq<Action>, facts: Facts, a: seq<(Name, Name)>, b: seq<(Name, Name)>)
    ensures Unmet(actions, facts, a + b) == Unmet(actions, facts, a) + Unmet(actions, facts, b)
  {
    if b == [] {
      assert a + b == a;
    } else {
      var less, x := b[..|b| - 1], b[|b| - 1];
      UnmetInOrder(actions, facts, a, less);
      UnmetOnward(actions, facts, a, less, x);
      assert b == less + [x];
    }
  }

  lemma {:induction false} UnmetOnward(actions: seq<Action>, facts: Facts, a: seq<(Name, Name)>, less: seq<(Name, Name)>, x: (Name, Name))
    requires Unmet(actions, facts, a + less) == Unmet(actions, facts, a) + Unmet(actions, facts, less)
    ensures Unmet(actions, facts, a + (less + [x])) == Unmet(actions, facts, a) + Unmet(actions, facts, less + [x])
  {
    Regrouped(a, less, [x]);
    UnmetMore(actions, facts, a + less, x);
    UnmetMore(actions, facts, less, x);
    Regrouped(Unmet(actions, facts, a), Unmet(actions, facts, less), Alone(actions, facts, x));
  }

  lemma {:induction false} Regrouped(a: seq<(Name, Name)>, b: seq<(Name, Name)>, c: seq<(Name, Name)>)
    ensures a + b + c == a + (b + c)
  {
  }

  // One want more gone through.
  ghost predicate Built(actions: seq<Action>, facts: Facts, w: seq<(Name, Name)>, deps: Deps, unmet: seq<(Name, Name)>) {
    Unlisted(actions, w, deps) == {} && unmet == Unmet(actions, facts, w)
  }

  method BuildOne(actions: seq<Action>, facts: Facts, made: map<Name, seq<Name>>, id: Name, q: Name, ghost w: seq<(Name, Name)>,
                  deps0: Deps, unmet0: seq<(Name, Name)>)
    returns (deps: Deps, unmet: seq<(Name, Name)>)
    requires Produced(actions, made) && id in deps0 && Built(actions, facts, w, deps0, unmet0)
    ensures deps.Keys == deps0.Keys && Built(actions, facts, w + [(id, q)], deps, unmet)
  {
    deps, unmet := deps0, unmet0;
    var producers := if q in made then made[q] else [];
    assert These([]) == {};
    ListsMore(actions, w, deps, (id, q), producers);
    UnmetMore(actions, facts, w, (id, q));
    if producers != [] {
      ThereIsOne(producers);
      deps := deps[id := deps[id] + producers];
    } else {
      assert deps[id] + producers == deps[id];
      assert deps[id := deps[id]] == deps;
      if !Held(facts, q) {
        unmet := unmet + [(id, q)];
      }
    }
  }

  lemma {:induction false} WantsOne(a: Action, k: nat, w: seq<(Name, Name)>)
    requires k < |a.prerequisites|
    ensures w + WantsOf(a, k + 1) == w + WantsOf(a, k) + [(a.id, a.prerequisites[k])]
  {
  }

  method BuildFor(actions: seq<Action>, facts: Facts, made: map<Name, seq<Name>>, a: Action, ghost w: seq<(Name, Name)>,
                  deps0: Deps, unmet0: seq<(Name, Name)>)
    returns (deps: Deps, unmet: seq<(Name, Name)>)
    requires Produced(actions, made) && a.id in deps0 && Built(actions, facts, w, deps0, unmet0)
    ensures deps.Keys == deps0.Keys && Built(actions, facts, w + WantsOf(a, |a.prerequisites|), deps, unmet)
  {
    deps, unmet := deps0, unmet0;
    assert w + WantsOf(a, 0) == w;
    for k := 0 to |a.prerequisites|
      invariant deps.Keys == deps0.Keys && Built(actions, facts, w + WantsOf(a, k), deps, unmet)
    {
      WantsOne(a, k, w);
      deps, unmet := BuildOne(actions, facts, made, a.id, a.prerequisites[k], w + WantsOf(a, k), deps, unmet);
    }
  }

  lemma {:induction false} ThereIsOne(s: seq<Name>)
    requires s != []
    ensures These(s) != {}
  {
    assert s[0] in These(s);
  }

  function Ids(actions: seq<Action>): (ids: set<Name>)
    ensures forall a :: a in actions ==> a.id in ids
    ensures forall id :: id in ids ==> exists a :: a in actions && a.id == id
  {
    set a | a in actions :: a.id
  }

  // What each action waits for, each once and in order, and each want that
  // nothing meets.
  method Build(actions: seq<Action>, facts: Facts) returns (deps: Deps, unmet: seq<(Name, Name)>)
    ensures deps.Keys == Ids(actions) && Built(actions, facts, Wants(actions, |actions|), deps, unmet)
    ensures forall id :: id in deps ==> Sorted(deps[id]) && EachOnce(deps[id])
  {
    var made := Establish(actions);
    deps := map id | id in Ids(actions) :: [];
    unmet := [];
    NoneYet(actions, facts, deps);
    for i := 0 to |actions|
      invariant deps.Keys == Ids(actions) && Built(actions, facts, Wants(actions, i), deps, unmet)
    {
      deps, unmet := BuildFor(actions, facts, made, actions[i], Wants(actions, i), deps, unmet);
    }
    ghost var was := deps;
    deps := Frozen(deps);
    SameLists(actions, Wants(actions, |actions|), was, deps);
  }

  lemma {:induction false} NoneYet(actions: seq<Action>, facts: Facts, deps: Deps)
    requires forall id :: id in deps ==> deps[id] == []
    ensures Built(actions, facts, Wants(actions, 0), deps, [])
  {
    assert These([]) == {};
    forall id | id in deps ensures id !in Unlisted(actions, [], deps) {
    }
  }

  lemma {:induction false} SameLists(actions: seq<Action>, w: seq<(Name, Name)>, was: Deps, deps: Deps)
    requires Unlisted(actions, w, was) == {} && deps.Keys == was.Keys
    requires forall id :: id in deps ==> These(deps[id]) == These(was[id])
    ensures Unlisted(actions, w, deps) == {}
  {
    forall id | id in deps ensures id !in Unlisted(actions, w, deps) {
      ListedIs(actions, w, was, id);
    }
  }

  ghost predicate EachOnce(s: seq<Name>) { forall i, j :: 0 <= i < j < |s| ==> s[i] != s[j] }

  method Frozen(deps0: Deps) returns (deps: Deps)
    ensures deps.Keys == deps0.Keys
    ensures forall id :: id in deps ==> Sorted(deps[id]) && EachOnce(deps[id]) && These(deps[id]) == These(deps0[id])
  {
    deps := deps0;
    var ids := Listed(deps.Keys);
    for i := 0 to |ids|
      invariant deps.Keys == deps0.Keys
      invariant forall id :: id in deps ==> These(deps[id]) == These(deps0[id])
      invariant forall id :: id in ids[..i] ==> id in deps && Sorted(deps[id]) && EachOnce(deps[id])
    {
      OneMore(ids, i);
      var distinct := Listed(These(deps[ids[i]]));
      var sorted := Sort(distinct);
      SortedSame(distinct, sorted);
      OnceEach(distinct, sorted);
      deps := deps[ids[i] := sorted];
    }
    assert ids[..|ids|] == ids;
  }

  lemma {:induction false} SortedSame(a: seq<Name>, b: seq<Name>)
    requires multiset(a) == multiset(b)
    ensures These(a) == These(b)
  {
    forall t ensures t in a <==> t in b {
      assert t in a <==> t in multiset(a);
      assert t in b <==> t in multiset(b);
    }
  }

  // ---- What it buys

  ghost predicate Distinct(actions: seq<Action>) {
    forall i, j :: 0 <= i < j < |actions| ==> actions[i].id != actions[j].id
  }

  // A prerequisite has been established - by all that establish it - or,
  // where none does, is a fact.
  ghost predicate InPlace(actions: seq<Action>, facts: Facts, done: seq<Action>, q: Name) {
    if Producers(actions, q) == {} then Held(facts, q) else forall b :: b in actions && q in b.posts ==> b in done
  }

  // The same actions in an order in which each is ready in its turn.
  ghost predicate Executable(actions: seq<Action>, facts: Facts, order: seq<Action>) {
    && (forall a :: a in order <==> a in actions) && Distinct(order)
    && (forall i, q :: 0 <= i < |order| && q in order[i].prerequisites ==> InPlace(actions, facts, order[..i], q))
  }

  // Whatever waits for what: `id` for each that establishes something it wants.
  lemma {:induction false} WaitsFor(actions: seq<Action>, deps: Deps, a: Action, q: Name, b: Action)
    requires Unlisted(actions, Wants(actions, |actions|), deps) == {} && a.id in deps && b.id in deps
    requires a in actions && q in a.prerequisites && b in actions && q in b.posts
    ensures b.id in Graph(deps)[a.id]
  {
    var w := Wants(actions, |actions|);
    WantsAre(actions, |actions|, (a.id, q));
    AwaitedBy(actions, w, a.id, b.id);
    ListedIs(actions, w, deps, a.id);
    assert b.id in These(deps[a.id]);
  }

  lemma {:induction false} WaitedFor(actions: seq<Action>, deps: Deps, a: Action, p: Name)
    requires Unlisted(actions, Wants(actions, |actions|), deps) == {} && a in actions && a.id in deps && p in Graph(deps)[a.id]
    requires Distinct(actions)
    ensures exists q, b :: q in a.prerequisites && b in actions && q in b.posts && b.id == p
  {
    var w := Wants(actions, |actions|);
    ListedIs(actions, w, deps, a.id);
    assert p in These(deps[a.id]);
    AwaitedBy(actions, w, a.id, p);
    var x :| x in w && x.0 == a.id && p in Producers(actions, x.1);
    WantsAre(actions, |actions|, x);
    var i :| 0 <= i < |actions| && actions[i].id == x.0 && x.1 in actions[i].prerequisites;
    var b :| b in actions && x.1 in b.posts && b.id == p;
    assert actions[i] == a;
  }

  // Each prerequisite of an executable order is a fact or established before.
  lemma {:induction false} Established(actions: seq<Action>, facts: Facts, order: seq<Action>, i: nat, q: Name)
    requires Executable(actions, facts, order) && i < |order| && q in order[i].prerequisites
    ensures Held(facts, q) || exists j :: 0 <= j < i && q in order[j].posts
  {
    assert InPlace(actions, facts, order[..i], q);
    if Producers(actions, q) != {} {
      var p := Pick(Producers(actions, q));
      var a :| a in actions && q in a.posts && a.id == p;
      assert a in order[..i];
      var j :| 0 <= j < i && order[..i][j] == a;
      assert q in order[j].posts;
    }
  }

  function ById(actions: seq<Action>, id: Name): (a: Action)
    requires id in Ids(actions)
    ensures a in actions && a.id == id
  {
    var last := actions[|actions| - 1];
    if last.id == id then last
    else
      assert forall b :: b in actions ==> b == last || b in actions[..|actions| - 1];
      ById(actions[..|actions| - 1], id)
  }

  // The actions of the names.
  function Named(actions: seq<Action>, names: seq<Name>): (r: seq<Action>)
    requires These(names) <= Ids(actions)
    ensures |r| == |names| && forall i :: 0 <= i < |r| ==> r[i] in actions && r[i].id == names[i]
  {
    seq(|names|, i requires 0 <= i < |names| => assert names[i] in These(names); ById(actions, names[i]))
  }

  lemma {:induction false} SameAction(actions: seq<Action>, a: Action, b: Action)
    requires Distinct(actions) && a in actions && b in actions && a.id == b.id
    ensures a == b
  {
  }

  // The names' order put in terms of the actions.
  lemma {:induction false} PlaceIn(actions: seq<Action>, names: seq<Name>, a: Action) returns (j: nat)
    requires Distinct(actions) && These(names) == Ids(actions) && a in actions
    ensures j < |names| && Named(actions, names)[j] == a
  {
    assert a.id in These(names);
    j :| 0 <= j < |names| && names[j] == a.id;
    SameAction(actions, a, Named(actions, names)[j]);
  }

  lemma {:induction false} EachBefore(actions: seq<Action>, deps: Deps, names: seq<Name>, i: nat, q: Name, b: Action)
    requires Distinct(actions) && deps.Keys == Ids(actions) && These(names) == Ids(actions)
    requires Unlisted(actions, Wants(actions, |actions|), deps) == {} && Ordered(Graph(deps), names)
    requires i < |names| && q in Named(actions, names)[i].prerequisites && b in actions && q in b.posts
    ensures b in Named(actions, names)[..i]
  {
    var order := Named(actions, names);
    var j := PlaceIn(actions, names, b);
    WaitsFor(actions, deps, order[i], q, b);
    assert names[j] in Graph(deps)[names[i]];
    assert order[..i][j] == b;
  }

  lemma {:induction false} MetOrHeld(actions: seq<Action>, facts: Facts, i: nat, q: Name)
    requires i < |actions| && q in actions[i].prerequisites && Unmet(actions, facts, Wants(actions, |actions|)) == []
    ensures Producers(actions, q) == {} ==> Held(facts, q)
  {
    UnmetNone(actions, facts, Wants(actions, |actions|));
    WantsAre(actions, |actions|, (actions[i].id, q));
  }

  lemma {:induction false} OrderedIsExecutable(actions: seq<Action>, facts: Facts, deps: Deps, names: seq<Name>)
    requires Distinct(actions) && deps.Keys == Ids(actions)
    requires Built(actions, facts, Wants(actions, |actions|), deps, []) && Ordered(Graph(deps), names)
    ensures These(names) == Ids(actions) && Executable(actions, facts, Named(actions, names))
  {
    assert These(names) == Graph(deps).Keys;
    var order := Named(actions, names);
    forall a | a in actions ensures a in order {
      var j := PlaceIn(actions, names, a);
    }
    forall i, q | 0 <= i < |order| && q in order[i].prerequisites ensures InPlace(actions, facts, order[..i], q) {
      var k :| 0 <= k < |actions| && actions[k] == order[i];
      MetOrHeld(actions, facts, k, q);
      forall b | b in actions && q in b.posts ensures b in order[..i] {
        EachBefore(actions, deps, names, i, q, b);
      }
    }
  }

  lemma {:induction false} EarlierId(actions: seq<Action>, facts: Facts, deps: Deps, order: seq<Action>, i: nat, p: Name)
    requires Distinct(actions) && deps.Keys == Ids(actions)
    requires Unlisted(actions, Wants(actions, |actions|), deps) == {} && Executable(actions, facts, order)
    requires i < |order| && order[i].id in deps && p in Graph(deps)[order[i].id]
    ensures exists k :: 0 <= k < i && order[k].id == p
  {
    assert order[i] in actions;
    WaitedFor(actions, deps, order[i], p);
    var q, b :| q in order[i].prerequisites && b in actions && q in b.posts && b.id == p;
    EarlierPlace(actions, facts, order, i, q, b);
  }

  lemma {:induction false} EarlierPlace(actions: seq<Action>, facts: Facts, order: seq<Action>, i: nat, q: Name, b: Action)
    requires Executable(actions, facts, order) && i < |order|
    requires q in order[i].prerequisites && b in actions && q in b.posts
    ensures exists k :: 0 <= k < i && order[k].id == b.id
  {
    assert InPlace(actions, facts, order[..i], q);
    assert b.id in Producers(actions, q);
    assert b in order[..i];
    var k :| 0 <= k < i && order[..i][k] == b;
    assert order[k].id == b.id;
  }

  function IdsOf(order: seq<Action>): (names: seq<Name>)
    ensures |names| == |order| && forall i :: 0 <= i < |names| ==> names[i] == order[i].id
    ensures These(names) == Ids(order)
  {
    var names := seq(|order|, i requires 0 <= i < |order| => order[i].id);
    assert forall i :: 0 <= i < |order| ==> names[i] == order[i].id;
    names
  }

  lemma {:induction false} ExecutableIsOrdered(actions: seq<Action>, facts: Facts, deps: Deps, order: seq<Action>)
    requires Distinct(actions) && deps.Keys == Ids(actions)
    requires Unlisted(actions, Wants(actions, |actions|), deps) == {} && Executable(actions, facts, order)
    ensures Ordered(Graph(deps), IdsOf(order))
  {
    var g, names := Graph(deps), IdsOf(order);
    assert These(names) == g.Keys;
    forall t ensures t in names <==> t in g {
      assert t in names <==> t in These(names);
    }
    forall i, j | 0 <= i <= j < |names| ensures names[j] !in g[names[i]] {
      assert names[i] in names;
      forall p | p in g[names[i]] ensures p != names[j] {
        EarlierId(actions, facts, deps, order, i, p);
      }
    }
  }

  lemma {:induction false} ExecutableIsMet(actions: seq<Action>, facts: Facts, order: seq<Action>)
    requires Executable(actions, facts, order)
    ensures Unmet(actions, facts, Wants(actions, |actions|)) == []
  {
    UnmetNone(actions, facts, Wants(actions, |actions|));
    forall x | x in Wants(actions, |actions|) ensures Producers(actions, x.1) != {} || Held(facts, x.1) {
      WantsAre(actions, |actions|, x);
      var k :| 0 <= k < |actions| && actions[k].id == x.0 && x.1 in actions[k].prerequisites;
      assert actions[k] in order;
      var i :| 0 <= i < |order| && order[i] == actions[k];
      assert InPlace(actions, facts, order[..i], x.1);
    }
  }

  // The two checks admit exactly the plans that can be carried out: with ids
  // of their own, nothing waits in a circle and nothing wanted is unmet if and
  // only if there is an order in which every prerequisite is established
  // beforehand by all that establish it, or is a fact to begin with.
  lemma {:induction false} AdmittedExactly(actions: seq<Action>, facts: Facts, deps: Deps, unmet: seq<(Name, Name)>)
    requires Distinct(actions) && deps.Keys == Ids(actions)
    requires Built(actions, facts, Wants(actions, |actions|), deps, unmet)
    ensures !Cyclic(Graph(deps)) && unmet == [] <==> exists order :: Executable(actions, facts, order)
  {
    OrderedExactly(Graph(deps));
    if !Cyclic(Graph(deps)) && unmet == [] {
      var names :| Ordered(Graph(deps), names);
      OrderedIsExecutable(actions, facts, deps, names);
    }
    if order :| Executable(actions, facts, order) {
      ExecutableIsOrdered(actions, facts, deps, order);
      ExecutableIsMet(actions, facts, order);
    }
  }
}
