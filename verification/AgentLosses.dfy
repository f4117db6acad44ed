// The calls that can end in a unit landed twice, and no others
// (`migkit/agent_control.py`).
module AgentLosses {
  import LastEvent
  import opened AgentControl

  // ---- Going on without harm

  ghost predicate Follows(w: World, es: seq<Event>)
    decreases |es|
  {
    es == [] || (Possible(w, es[0]) && Harmless(w, es[0]) && Follows(Step(w, es[0]), es[1..]))
  }

  ghost function After(w: World, es: seq<Event>): World
    requires Follows(w, es)
    decreases |es|
  {
    if es == [] then w else After(Step(w, es[0]), es[1..])
  }

  lemma {:induction false} FollowsOn(w: World, a: seq<Event>, b: seq<Event>)
    requires Follows(w, a) && Follows(After(w, a), b)
    ensures Follows(w, a + b) && After(w, a + b) == After(After(w, a), b)
    decreases |a|
  {
    if a == [] {
      assert a + b == b;
    } else {
      var e, next := a[0], Step(w, a[0]);
      assert (a + b)[0] == e && (a + b)[1..] == a[1..] + b;
      FollowsOn(next, a[1..], b);
      assert Follows(next, (a + b)[1..]);
    }
  }

  lemma {:induction false} OneEvent(w: World, e: Event)
    requires Possible(w, e) && Harmless(w, e)
    ensures Follows(w, [e]) && After(w, [e]) == Step(w, e)
  {
    assert [e][1..] == [];
    assert Follows(Step(w, e), [e][1..]);
  }

  lemma {:induction false} SoundGoesOn(w: World, es: seq<Event>)
    requires Sound(w) && Follows(w, es)
    ensures Sound(After(w, es))
    decreases |es|
  {
    if es != [] {
      StepKeepsExactly(w, es[0]);
      SoundGoesOn(Step(w, es[0]), es[1..]);
    }
  }

  // ---- A unit that landed and that nothing covers

  ghost predicate Lost(w: World, u: UnitId) {
    !w.refused && u in w.landed && !Covered(w, u)
  }

  lemma {:induction false} LongerThanAll(s: set<string>) returns (n: nat)
    ensures forall t :: t in s ==> |t| < n
  {
    n := 0;
    var left := s;
    while left != {}
      invariant left <= s && forall t :: t in s && t !in left ==> |t| < n
      decreases left
    {
      var t :| t in left;
      n, left := if |t| < n then n else |t| + 1, left - {t};
    }
  }

  lemma {:induction false} NewId(w: World) returns (o: OpId)
    ensures o !in w.ops
  {
    var n := LongerThanAll(w.ops.Keys);
    o := seq(n, _ => 'x');
  }

  lemma {:induction false} Listed(ops: set<OpId>) returns (list: seq<OpId>)
    ensures Enumerates(list, ops)
  {
    list := [];
    var left := ops;
    while left != {}
      invariant left <= ops && Enumerates(list, ops - left)
      decreases left
    {
      var o :| o in left;
      list, left := list + [o], left - {o};
    }
  }

  function Asked(o: OpId, execute: bool, units: seq<UnitId>, plan: LastEvent.Option<string>): Request {
    Request(o, execute, "", units, true, plan, false, true, true, true, execute)
  }

  // A request to look, under an operation id not used yet, is let through
  // wherever nothing is refused for good.
  lemma {:induction false} LookIsReadOnly(w: World, o: OpId)
    requires !w.refused && o !in w.ops
    ensures Admission(w, Asked(o, false, [], LastEvent.None)) == ReadOnly
  {
  }

  // Each write in flight may vanish.
  lemma {:induction false} AllVanish(w: World, u: UnitId) returns (es: seq<Event>)
    requires Lost(w, u)
    ensures Follows(w, es) && Lost(After(w, es), u) && After(w, es).flying == map[]
    decreases |w.flying|
  {
    if w.flying == map[] {
      es := [];
    } else {
      var x :| x in w.flying;
      var v := Step(w, Vanishes(x));
      assert v.flying.Keys == w.flying.Keys - {x} && |v.flying.Keys| == |v.flying|;
      assert UncertainOps(v) == UncertainOps(w);
      var more := AllVanish(v, u);
      OneEvent(w, Vanishes(x));
      FollowsOn(w, [Vanishes(x)], more);
      es := [Vanishes(x)] + more;
    }
  }

  // A plan stopped before it owns its operation leaves one ratified.
  lemma {:induction false} Planned(w: World, u: UnitId) returns (es: seq<Event>)
    requires Lost(w, u) && w.flying == map[]
    ensures Follows(w, es) && Lost(After(w, es), u) && After(w, es).flying == map[] && After(w, es).plan.Some?
  {
    var o := NewId(w);
    LookIsReadOnly(w, o);
    var e := PlanCall(Asked(o, false, [], LastEvent.None), false, "", 1);
    OneEvent(w, e);
    assert UncertainOps(Step(w, e)) == UncertainOps(w);
    es := [e];
  }

  // What an operation landed and nobody checkpointed.
  ghost function Loose(w: World, o: OpId): set<UnitId> {
    set u | u in w.landed && u !in w.completed && u in w.writer && w.writer[u] == o
  }

  ghost function Answers(w: World): map<OpId, Probe> {
    map o | o in UncertainOps(w) :: Probe(EffectNothing, Loose(w, o))
  }

  lemma {:induction false} AnswersAreTruthful(w: World, list: seq<OpId>)
    requires w.flying == map[] && Enumerates(list, UncertainOps(w))
    ensures AllTruthful(w, list, Answers(w))
  {
  }

  lemma {:induction false} AllSettled(w: World, list: seq<OpId>, stop: nat)
    requires Enumerates(list, UncertainOps(w)) && Saved(list, Answers(w), stop)
    ensures SettledBy(list, Answers(w), stop) == UncertainOps(w)
  {
    forall o | o in UncertainOps(w) ensures o in SettledBy(list, Answers(w), stop) {
      SavedSettlesAll(list, Answers(w), stop, o);
    }
  }

  lemma {:induction false} NotKept(w: World, u: UnitId, list: seq<OpId>)
    requires Lost(w, u) && Enumerates(list, UncertainOps(w))
    ensures u !in KeptAfter(list, Answers(w), w.completed)
  {
    KeptAfterHas(list, Answers(w), w.completed, u);
  }

  // A whole reconcile settles every operation and saves what each says landed.
  lemma {:induction false} Reconciles(w: World, u: UnitId) returns (es: seq<Event>)
    requires Lost(w, u) && w.flying == map[] && w.plan.Some?
    ensures Follows(w, es)
    ensures var v := After(w, es); Lost(v, u) && v.plan.Some? && UncertainOps(v) == {}
  {
    var o := NewId(w);
    LookIsReadOnly(w, o);
    var list := Listed(UncertainOps(w));
    var answers := Answers(w);
    var req, stop := Asked(o, false, [], LastEvent.None), Settling(list, answers) + 1;
    AnswersAreTruthful(w, list);
    var e := ReconcileCall(req, list, answers, stop);
    OneEvent(w, e);
    SettleAllIs(w, list, answers, w.completed, stop);
    AllSettled(w, list, stop);
    SettledUncertain(w, list, answers, stop);
    NotKept(w, u, list);
    assert UncertainOps(Step(w, e)) == UncertainOps(WithSettled(w, answers, SettledBy(list, answers, stop)));
    es := [e];
  }

  lemma {:induction false} ExecutedAgain(w: World, u: UnitId) returns (es: seq<Event>)
    requires Lost(w, u) && w.plan.Some? && UncertainOps(w) == {}
    ensures Follows(w, es) && After(w, es).landed[u] >= 2
  {
    var o := NewId(w);
    var req := Asked(o, true, [u], w.plan);
    assert Admission(w, req) == WriteAdmitted;
    LostUnitLandsTwice(w, req, u, 2);
    var e := ExecuteCall(req, [Lands], 2);
    OneEvent(w, e);
    es := [e];
  }

  // From wherever a landed unit is lost, harmless calls alone can land it
  // once more.
  lemma {:induction false} LostCanLandTwice(w: World, u: UnitId) returns (es: seq<Event>)
    requires Lost(w, u)
    ensures Follows(w, es) && After(w, es).landed[u] >= 2
  {
    es := AllVanish(w, u);
    var more := Planned(After(w, es), u);
    FollowsOn(w, es, more);
    es := es + more;
    more := Reconciles(After(w, es), u);
    FollowsOn(w, es, more);
    es := es + more;
    more := ExecutedAgain(After(w, es), u);
    FollowsOn(w, es, more);
    es := es + more;
  }

  // ---- Harm loses a unit

  lemma {:induction false} PlanLoses(w: World, e: Event) returns (es: seq<Event>, u: UnitId)
    requires Sound(w) && Possible(w, e) && e.PlanCall? && !Harmless(w, e)
    ensures Follows(Step(w, e), es) && Lost(After(Step(w, e), es), u)
  {
    var o, v := e.req.op, Step(w, e);
    assert UncertainOps(v) == UncertainOps(w) - {o};
    if x :| x in w.landed && x !in w.completed && x in w.writer && w.writer[x] == o {
      es, u := [], x;
    } else {
      u :| u in w.flying && w.flying[u] == o;
      OneEvent(v, Arrives(u));
      assert UncertainOps(Step(v, Arrives(u))) == UncertainOps(v);
      es := [Arrives(u)];
    }
  }

  lemma {:induction false} ReconcileLoses(w: World, e: Event) returns (u: UnitId)
    requires Sound(w) && Possible(w, e) && e.ReconcileCall? && !Harmless(w, e)
    ensures Lost(Step(w, e), u)
  {
    SettleAllIs(w, e.list, e.probes, w.completed, e.stop);
    SettledUncertain(w, e.list, e.probes, e.stop);
    u :| u in w.landed && u !in w.completed && u in w.writer && w.writer[u] in SettledBy(e.list, e.probes, e.stop);
  }

  // A call is harmless exactly where, however harmlessly the run goes on from
  // it, no unit takes effect twice.
  lemma {:induction false} HarmlessExactly(w: World, e: Event)
    requires Sound(w) && Possible(w, e)
    ensures Harmless(w, e) <==> forall es :: Follows(Step(w, e), es) ==> AtMostOnce(After(Step(w, e), es))
  {
    var v := Step(w, e);
    if Harmless(w, e) {
      StepKeepsExactly(w, e);
      forall es | Follows(v, es) ensures AtMostOnce(After(v, es)) {
        SoundGoesOn(v, es);
      }
    } else {
      var es, u := HarmLandsTwice(w, e);
    }
  }

  lemma {:induction false} HarmLandsTwice(w: World, e: Event) returns (es: seq<Event>, u: UnitId)
    requires Sound(w) && Possible(w, e) && !Harmless(w, e)
    ensures Follows(Step(w, e), es) && After(Step(w, e), es).landed[u] >= 2
  {
    var v := Step(w, e);
    es := [];
    if e.PlanCall? {
      es, u := PlanLoses(w, e);
    } else {
      u := ReconcileLoses(w, e);
    }
    var more := LostCanLandTwice(After(v, es), u);
    FollowsOn(v, es, more);
    es := es + more;
  }

  // A run has no harmful call exactly where, from each of its worlds, going on
  // harmlessly lands no unit twice.
  lemma {:induction false} RunsLandOnceExactly(ws: seq<World>, es: seq<Event>)
    requires IsRun(ws, es)
    ensures (forall i :: 0 <= i < |es| ==> Harmless(ws[i], es[i]))
       <==> (forall i, more :: 0 <= i < |ws| && Follows(ws[i], more) ==> AtMostOnce(After(ws[i], more)))
  {
    if forall i :: 0 <= i < |es| ==> Harmless(ws[i], es[i]) {
      forall i, more | 0 <= i < |ws| && Follows(ws[i], more) ensures AtMostOnce(After(ws[i], more)) {
        SoundUpTo(ws, es, i);
        SoundGoesOn(ws[i], more);
      }
    } else {
      var i := FirstHarm(ws, es);
      SoundUpTo(ws, es, i);
      var more, u := HarmLandsTwice(ws[i], es[i]);
      assert ws[i + 1] == Step(ws[i], es[i]);
    }
  }

  lemma {:induction false} SoundUpTo(ws: seq<World>, es: seq<Event>, i: nat)
    requires IsRun(ws, es) && i < |ws| && forall j :: 0 <= j < i ==> Harmless(ws[j], es[j])
    ensures Sound(ws[i])
  {
    RunsLandOnce(ws[..i + 1], es[..i]);
  }

  lemma {:induction false} FirstHarm(ws: seq<World>, es: seq<Event>) returns (i: nat)
    requires IsRun(ws, es) && exists j :: 0 <= j < |es| && !Harmless(ws[j], es[j])
    ensures i < |es| && !Harmless(ws[i], es[i]) && forall j :: 0 <= j < i ==> Harmless(ws[j], es[j])
  {
    i := 0;
    while Harmless(ws[i], es[i])
      invariant i < |es| && forall j :: 0 <= j < i ==> Harmless(ws[j], es[j])
      decreases |es| - i
    {
      i := i + 1;
    }
  }

  // ---- A plan that lands a unit twice

  // A plan asked for under the id of an execute that was stopped after its
  // write, and then an execute of the unit.
  lemma {:induction false} PlanOverExecuteLandsTwice()
    ensures var planned := PlanStep(STOPPED, Asking("a", false, "fp", []), false, "plan", 2);
            && Possible(STOPPED, PlanCall(Asking("a", false, "fp", []), false, "plan", 2))
            && ExecuteStep(PLANNED, Asking("a", true, "fa", ["u"]), [Lands], 2) == STOPPED
            && ExecuteStep(planned, Asking("b", true, "fb", ["u"]), [Lands], 9).landed["u"] == 2
  {
    var plan, again := Asking("a", false, "fp", []), Asking("b", true, "fb", ["u"]);
    StoppedBeforeCheckpoint();
    assert Admission(STOPPED, plan) == ReadOnly;
    var planned := PlanStep(STOPPED, plan, false, "plan", 2);
    assert planned.ops == map["a" := Op(Committed, Planning, "fp")];
    assert UncertainOps(planned) == {};
    assert Admission(planned, again) == WriteAdmitted;
    assert planned.landed["u"] == 1;
    LostUnitLandsTwice(planned, again, "u", 9);
  }
}
