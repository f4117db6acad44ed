// What each call does where nothing stops it: which are let through, and
// what they leave (`migkit/agent_control.py`).
module AgentProgress {
  import LastEvent
  import opened AgentControl

  // ---- Admission, written out

  ghost predicate Fit(w: World, req: Request) {
    !req.badRequest && !w.refused && req.scopeHolds && req.sameGoal
  }

  // The operation was committed - for this request, or for another.
  ghost predicate Done(w: World, req: Request) { req.op in w.ops && w.ops[req.op].state == Committed }

  ghost predicate DoneAlike(w: World, req: Request) { Done(w, req) && w.ops[req.op].fingerprint == req.fingerprint }

  ghost predicate Unsettled(w: World) {
    exists o :: o in w.ops && (w.ops[o].state == Began || w.ops[o].state == Unknown)
  }

  lemma {:induction false} UnsettledIs(w: World)
    ensures Unsettled(w) <==> UncertainOps(w) != {}
  {
    if o :| o in w.ops && (w.ops[o].state == Began || w.ops[o].state == Unknown) {
      assert o in UncertainOps(w);
    }
  }

  ghost predicate MayWrite(w: World, req: Request) {
    Fit(w, req) && !Done(w, req) && req.authorized && req.execute && req.allowWrite
    && w.plan.Some? && req.plan == w.plan && !Unsettled(w)
  }

  ghost predicate MayRead(w: World, req: Request) {
    Fit(w, req) && !Done(w, req) && req.authorized
    && (req.execute ==> !req.allowWrite && w.plan.Some? && req.plan == w.plan && !Unsettled(w))
  }

  // A request is done already, may write, may read, or is refused - exactly.
  lemma {:induction false} AdmissionExactly(w: World, req: Request)
    ensures Admission(w, req) == Deduplicated <==> Fit(w, req) && DoneAlike(w, req)
    ensures Admission(w, req) == WriteAdmitted <==> MayWrite(w, req)
    ensures Admission(w, req) == ReadOnly <==> MayRead(w, req)
  {
    UnsettledIs(w);
  }

  // ---- An execute

  // A unit's write: there once more by that operation, or not there, or on its
  // way; nothing else of the world changes.
  lemma {:induction false} WriteSays(w: World, o: OpId, u: UnitId, outcome: Outcome)
    ensures var v := WriteUnit(w, o, u, outcome);
            && v == w.(landed := v.landed, writer := v.writer, flying := v.flying)
            && (outcome.Lands? || outcome.RaisesLanded? ==>
                  v.landed == w.landed + multiset{u} && v.writer == w.writer[u := o] && v.flying == w.flying)
            && (outcome.RaisesNothing? ==> v == w)
            && (outcome.RaisesFlying? ==> v == w.(flying := w.flying[u := o]))
  {
  }

  // Unit by unit with nothing in the way: every unit checkpointed, each that
  // was not before landed once more, and writes left.
  lemma {:induction false} RunLands(w: World, o: OpId, units: seq<UnitId>, outcomes: seq<Outcome>, stop: nat)
    requires o in w.ops && |outcomes| == |units| && stop >= 2 * |units| + 1
    requires forall x :: x in outcomes ==> x == Lands
    ensures var ran := RunUnits(w, o, units, outcomes, stop);
            && ran.ended && ran.stop > 0 && ran.w.ops == w.ops && ran.w.plan == w.plan && ran.w.refused == w.refused
            && (forall u :: u in ran.w.completed <==> u in w.completed || u in units)
            && (forall u :: ran.w.landed[u] == w.landed[u] + if u in units && u !in w.completed then 1 else 0)
    decreases |units|
  {
    if units != [] {
      var u := units[0];
      assert units == [u] + units[1..];
      assert outcomes[0] in outcomes && forall x :: x in outcomes[1..] ==> x in outcomes;
      if u in w.completed {
        RunLands(w, o, units[1..], outcomes[1..], stop);
      } else {
        RunLands(Checkpoint(WriteUnit(w, o, u, Lands), o, u), o, units[1..], outcomes[1..], stop - 2);
      }
    }
  }

  // An admitted execute in its scope, its writes landing and nothing stopping
  // it: committed with the request's fingerprint, every unit checkpointed and
  // each that was not landed once more.
  lemma {:induction false} ExecuteCommits(w: World, req: Request, outcomes: seq<Outcome>, stop: nat)
    requires MayWrite(w, req) && req.inScope && |outcomes| == |req.units| && stop >= 2 * |req.units| + 2
    requires forall x :: x in outcomes ==> x == Lands
    ensures var v := ExecuteStep(w, req, outcomes, stop);
            && v.ops == w.ops[req.op := Op(Committed, Executing, req.fingerprint)]
            && v.plan == w.plan && v.refused == w.refused
            && (forall u :: u in v.completed <==> u in w.completed || u in req.units)
            && (forall u :: v.landed[u] == w.landed[u] + if u in req.units && u !in w.completed then 1 else 0)
  {
    AdmissionExactly(w, req);
    RunLands(Begin(w, req), req.op, req.units, outcomes, stop - 1);
  }

  // Asked again it is a duplicate, and changes nothing.
  lemma {:induction false} AskedAgainIsNothing(w: World, req: Request, outcomes: seq<Outcome>, stop: nat, more: seq<Outcome>, later: nat)
    requires MayWrite(w, req) && req.inScope && |outcomes| == |more| == |req.units| && stop >= 2 * |req.units| + 2
    requires forall x :: x in outcomes ==> x == Lands
    ensures var v := ExecuteStep(w, req, outcomes, stop);
            Admission(v, req) == Deduplicated && ExecuteStep(v, req, more, later) == v
  {
    ExecuteCommits(w, req, outcomes, stop);
    AdmissionExactly(ExecuteStep(w, req, outcomes, stop), req);
  }

  lemma {:induction false} RunRaises(w: World, o: OpId, units: seq<UnitId>, outcomes: seq<Outcome>, stop: nat, i: nat)
    requires o in w.ops && |outcomes| == |units| && i < |units| && stop >= 2 * i + 2
    requires (forall j :: 0 <= j < i ==> outcomes[j] == Lands) && outcomes[i] != Lands
    requires units[i] !in w.completed && units[i] !in units[..i]
    ensures var ran := RunUnits(w, o, units, outcomes, stop);
            && !ran.ended && ran.w.ops == w.ops[o := w.ops[o].(state := Unknown)]
            && (forall u :: u in ran.w.completed <==> u in w.completed || u in units[..i])
    decreases |units|
  {
    var u := units[0];
    if i > 0 {
      assert units[..i] == [u] + units[1..][..i - 1] && units[1..][i - 1] == units[i];
      if u in w.completed {
        RunRaises(w, o, units[1..], outcomes[1..], stop, i - 1);
      } else {
        RunRaises(Checkpoint(WriteUnit(w, o, u, Lands), o, u), o, units[1..], outcomes[1..], stop - 2, i - 1);
      }
    }
  }

  // A write that raises leaves its operation unknown, the units before it
  // checkpointed and no other.
  lemma {:induction false} RaisedIsUnknown(w: World, req: Request, outcomes: seq<Outcome>, stop: nat, i: nat)
    requires MayWrite(w, req) && req.inScope && |outcomes| == |req.units| && i < |req.units| && stop >= 2 * i + 3
    requires (forall j :: 0 <= j < i ==> outcomes[j] == Lands) && outcomes[i] != Lands
    requires req.units[i] !in w.completed && req.units[i] !in req.units[..i]
    ensures var v := ExecuteStep(w, req, outcomes, stop);
            && v.ops == w.ops[req.op := Op(Unknown, Executing, req.fingerprint)]
            && (forall u :: u in v.completed <==> u in w.completed || u in req.units[..i])
  {
    AdmissionExactly(w, req);
    RunRaises(Begin(w, req), req.op, req.units, outcomes, stop - 1, i);
  }

  // Outside its scope, or not let through, an execute changes nothing.
  lemma {:induction false} ElseNothing(w: World, req: Request, outcomes: seq<Outcome>, stop: nat)
    requires |outcomes| == |req.units| && !(MayWrite(w, req) && req.inScope)
    ensures ExecuteStep(w, req, outcomes, stop) == w
  {
    AdmissionExactly(w, req);
  }

  // ---- A plan

  // A plan that is let through and not stopped refuses the contract for good
  // where it is blocked; else it leaves the plan ratified before, or its own,
  // and its operation committed.
  lemma {:induction false} PlanLeaves(w: World, req: Request, blocked: bool, plan: string, stop: nat)
    requires (MayWrite(w, req) || MayRead(w, req)) && stop >= 2
    ensures var v := PlanStep(w, req, blocked, plan, stop);
            if blocked then v == w.(refused := true)
            else v == w.(plan := v.plan, ops := v.ops)
                 && v.plan == (if w.plan.Some? then w.plan else LastEvent.Some(plan))
                 && v.ops == w.ops[req.op := Op(Committed, Planning, req.fingerprint)]
  {
    AdmissionExactly(w, req);
  }

  // Once refused, always refused, and no call changes anything; once a plan
  // is ratified it is the plan for good.
  lemma {:induction false} StepKeepsContract(w: World, e: Event)
    requires Possible(w, e)
    ensures w.refused ==> Step(w, e).refused && (e.ExecuteCall? || e.PlanCall? || e.ReconcileCall? ==> Step(w, e) == w)
    ensures w.plan.Some? ==> Step(w, e).plan == w.plan
  {
    match e
    case ExecuteCall(req, outcomes, stop) =>
      AdmissionExactly(w, req);
      if stop > 0 {
        RunKeepsContract(Begin(w, req), req.op, req.units, outcomes, stop - 1);
      }
    case PlanCall(req, _, _, _) => AdmissionExactly(w, req);
    case ReconcileCall(req, list, probes, stop) =>
      AdmissionExactly(w, req);
      SettleAllIs(w, list, probes, w.completed, stop);
    case _ =>
  }

  lemma {:induction false} RunKeepsContract(w: World, o: OpId, units: seq<UnitId>, outcomes: seq<Outcome>, stop: nat)
    requires o in w.ops && |outcomes| == |units|
    ensures var v := RunUnits(w, o, units, outcomes, stop).w; v.plan == w.plan && v.refused == w.refused && o in v.ops
    decreases |units|
  {
    if units != [] {
      if units[0] in w.completed {
        RunKeepsContract(w, o, units[1..], outcomes[1..], stop);
      } else if stop >= 2 && outcomes[0] == Lands {
        RunKeepsContract(Checkpoint(WriteUnit(w, o, units[0], Lands), o, units[0]), o, units[1..], outcomes[1..], stop - 2);
      }
    }
  }

  // So over any run.
  lemma {:induction false} RunsKeepContract(ws: seq<World>, es: seq<Event>, i: nat, j: nat)
    requires IsRun(ws, es) && i <= j < |ws|
    ensures ws[i].refused ==> ws[j].refused
    ensures ws[i].plan.Some? ==> ws[j].plan == ws[i].plan
    decreases j - i
  {
    if i < j {
      RunsKeepContract(ws, es, i, j - 1);
      StepKeepsContract(ws[j - 1], es[j - 1]);
      assert ws[j - 1 + 1] == Step(ws[j - 1], es[j - 1]);
    }
  }

  // ---- A reconcile

  lemma {:induction false} SettlingAtMost(list: seq<OpId>, probes: map<OpId, Probe>)
    requires forall o :: o in list ==> o in probes
    ensures Settling(list, probes) <= |list|
  {
    if list != [] {
      SettlingAtMost(list[1..], probes);
    }
  }

  lemma {:induction false} SettledExactly(list: seq<OpId>, probes: map<OpId, Probe>, stop: nat, o: OpId)
    requires (forall x :: x in list ==> x in probes) && Saved(list, probes, stop)
    ensures o in SettledBy(list, probes, stop) <==> o in list && probes[o].effect != EffectUnclear
  {
    if o in list && Settles(probes[o]) {
      SavedSettlesAll(list, probes, stop, o);
    }
  }

  ghost function AsSaid(op: Op, said: Effect): Op {
    match said
    case EffectCommitted => Op(Committed, op.phase, op.fingerprint)
    case EffectNothing => Op(ReconciledNothing, op.phase, op.fingerprint)
    case EffectUnclear => op
  }

  // A reconcile that is let through and not stopped: every uncertain
  // operation is as its probe says - as it was, where that does not know -
  // and what the probes say landed is checkpointed.
  lemma {:induction false} ReconcileLeaves(w: World, req: Request, list: seq<OpId>, probes: map<OpId, Probe>, stop: nat)
    requires Fit(w, req) && (DoneAlike(w, req) || MayWrite(w, req) || MayRead(w, req)) && stop > |list|
    requires Enumerates(list, UncertainOps(w)) && forall o :: o in list ==> o in w.ops && o in probes
    ensures var v := ReconcileStep(w, req, list, probes, stop);
            && v == w.(ops := v.ops, completed := v.completed) && v.ops.Keys == w.ops.Keys
            && (forall o :: o in w.ops ==> v.ops[o] == if o in list then AsSaid(w.ops[o], probes[o].effect) else w.ops[o])
            && (forall u :: u in v.completed <==> u in w.completed || exists o :: o in list && u in probes[o].landed)
  {
    AdmissionExactly(w, req);
    SettlingAtMost(list, probes);
    SettleAllIs(w, list, probes, w.completed, stop);
    forall o ensures o in SettledBy(list, probes, stop) <==> o in list && probes[o].effect != EffectUnclear {
      SettledExactly(list, probes, stop, o);
    }
    forall u ensures u in KeptAfter(list, probes, w.completed) <==> u in w.completed || exists o :: o in list && u in probes[o].landed {
      KeptAfterHas(list, probes, w.completed, u);
    }
  }
}
