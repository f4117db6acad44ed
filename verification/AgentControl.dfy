// Execution and reconciliation, a stop allowed between any two durable
// writes (`migkit/agent_control.py`, `migkit/attempts.py`).
module AgentControl {
  import opened LastEvent

  type OpId = string
  type UnitId = string

  datatype Phase = Planning | Executing

  datatype State = Began | Unknown | Committed | ReconciledNothing

  // What the ledger keeps of an operation.
  datatype Op = Op(state: State, phase: Phase, fingerprint: string)

  // What outlives a stop: the ledger's operations, the checkpointed units and
  // the contract; and, on the target, how often each unit took effect and by
  // whose hand, and the writes still in flight. `wanted` is what each
  // operation was last begun for.
  datatype World = World(
    ops: map<OpId, Op>,
    completed: map<UnitId, OpId>,
    plan: Option<string>,
    refused: bool,
    landed: multiset<UnitId>,
    writer: map<UnitId, OpId>,
    flying: map<UnitId, OpId>,
    wanted: map<OpId, set<UnitId>>)

  const START := World(map[], map[], None, false, multiset{}, map[], map[], map[])

  // ---- Admission

  datatype Request = Request(
    op: OpId, execute: bool, fingerprint: string, units: seq<UnitId>, inScope: bool, plan: Option<string>,
    badRequest: bool, scopeHolds: bool, sameGoal: bool, authorized: bool, allowWrite: bool)

  datatype Facts = Facts(kept: bool, refused: bool, writeRefused: bool, go: bool, authorize: bool, sameShape: bool)

  datatype Rung = Deduplicated | WriteAdmitted | ReadOnly | RefuseOperation

  predicate Uncertain(op: Op) { op.state == Began || op.state == Unknown }

  function UncertainOps(w: World): set<OpId> {
    set o | o in w.ops && Uncertain(w.ops[o])
  }

  function FactsOf(w: World, req: Request): Facts {
    var committed := req.op in w.ops && w.ops[req.op].state == Committed;
    var kept := committed && w.ops[req.op].fingerprint == req.fingerprint;
    Facts(
      kept,
      req.badRequest || w.refused || !req.scopeHolds || (committed && !kept),
      !req.authorized || (req.execute && (w.plan.None? || req.plan != w.plan || (UncertainOps(w) != {} && !kept))),
      req.execute && req.allowWrite,
      req.authorized,
      req.scopeHolds && req.sameGoal)
  }

  // The first rung whose needs hold, in the ladder's order.
  function Admit(f: Facts): Rung {
    if f.kept && !f.refused && f.sameShape then Deduplicated
    else if !f.refused && !f.writeRefused && f.go && f.authorize && f.sameShape then WriteAdmitted
    else if !f.refused && !f.writeRefused && f.authorize && f.sameShape then ReadOnly
    else RefuseOperation
  }

  function Admission(w: World, req: Request): Rung { Admit(FactsOf(w, req)) }

  // A write is admitted only while nothing is uncertain.
  lemma {:induction false} AdmittedMeansSettled(w: World, req: Request)
    requires Admission(w, req) == WriteAdmitted
    ensures UncertainOps(w) == {} && w.plan.Some? && req.plan == w.plan
    ensures req.op in w.ops ==> w.ops[req.op].state == ReconciledNothing
  {
    var f := FactsOf(w, req);
    assert !f.kept && !f.refused;
    assert forall o :: o in w.ops && Uncertain(w.ops[o]) ==> o in UncertainOps(w);
  }

  // ---- Execute

  // How a unit's write ends: it returns, or it raises with its effect there,
  // not there, or still on its way.
  datatype Outcome = Lands | RaisesLanded | RaisesNothing | RaisesFlying

  function Own(w: World, o: OpId, state: State): World
    requires o in w.ops
  {
    w.(ops := w.ops[o := w.ops[o].(state := state)])
  }

  function Begin(w: World, req: Request): World {
    w.(ops := w.ops[req.op := Op(Began, Executing, req.fingerprint)],
       wanted := w.wanted[req.op := set u | u in req.units])
  }

  function WriteUnit(w: World, o: OpId, u: UnitId, outcome: Outcome): World {
    match outcome
    case Lands => w.(landed := w.landed + multiset{u}, writer := w.writer[u := o])
    case RaisesLanded => w.(landed := w.landed + multiset{u}, writer := w.writer[u := o])
    case RaisesNothing => w
    case RaisesFlying => w.(flying := w.flying[u := o])
  }

  function Checkpoint(w: World, o: OpId, u: UnitId): World { w.(completed := w.completed[u := o]) }

  // The world reached, the writes left before the stop, and whether every
  // unit was gone through.
  datatype Ran = Ran(w: World, stop: nat, ended: bool)

  // Unit by unit: a checkpointed unit is passed over, another is written and
  // then checkpointed. `stop` writes happen before the run is cut.
  function RunUnits(w: World, o: OpId, units: seq<UnitId>, outcomes: seq<Outcome>, stop: nat): Ran
    requires o in w.ops && |outcomes| == |units|
    decreases |units|
  {
    if units == [] then Ran(w, stop, true)
    else if units[0] in w.completed then RunUnits(w, o, units[1..], outcomes[1..], stop)
    else if stop == 0 then Ran(w, 0, false)
    else
      var written := WriteUnit(w, o, units[0], outcomes[0]);
      if stop == 1 then Ran(written, 0, false)
      else if outcomes[0] == Lands then RunUnits(Checkpoint(written, o, units[0]), o, units[1..], outcomes[1..], stop - 2)
      else Ran(Own(written, o, Unknown), stop - 2, false)
  }

  lemma {:induction false} RunKeepsOps(w: World, o: OpId, units: seq<UnitId>, outcomes: seq<Outcome>, stop: nat)
    requires o in w.ops && |outcomes| == |units|
    ensures o in RunUnits(w, o, units, outcomes, stop).w.ops
    decreases |units|
  {
    if units != [] {
      if units[0] in w.completed {
        RunKeepsOps(w, o, units[1..], outcomes[1..], stop);
      } else if stop >= 2 && outcomes[0] == Lands {
        RunKeepsOps(Checkpoint(WriteUnit(w, o, units[0], Lands), o, units[0]), o, units[1..], outcomes[1..], stop - 2);
      }
    }
  }

  function ExecuteStep(w: World, req: Request, outcomes: seq<Outcome>, stop: nat): World
    requires |outcomes| == |req.units|
  {
    if Admission(w, req) != WriteAdmitted || !req.inScope || stop == 0 then w
    else
      var ran := RunUnits(Begin(w, req), req.op, req.units, outcomes, stop - 1);
      RunKeepsOps(Begin(w, req), req.op, req.units, outcomes, stop - 1);
      if ran.ended && ran.stop > 0 then Own(ran.w, req.op, Committed) else ran.w
  }

  // ---- Plan

  // The contract is saved with its plan, then the operation is owned as
  // committed - whatever the ledger held of it.
  function PlanStep(w: World, req: Request, blocked: bool, plan: string, stop: nat): World {
    if Admission(w, req) == RefuseOperation || Admission(w, req) == Deduplicated || stop == 0 then w
    else if blocked then w.(refused := true)
    else
      var planned := w.(plan := Some(if w.plan.Some? then w.plan.value else plan));
      if stop == 1 then planned
      else planned.(ops := planned.ops[req.op := Op(Committed, Planning, req.fingerprint)])
  }

  // ---- Reconcile

  datatype Effect = EffectCommitted | EffectNothing | EffectUnclear

  datatype Probe = Probe(effect: Effect, landed: set<UnitId>)

  function Settles(p: Probe): bool { p.effect != EffectUnclear }

  function Settle(w: World, o: OpId, p: Probe): World
    requires o in w.ops
  {
    match p.effect
    case EffectCommitted => Own(w, o, Committed)
    case EffectNothing => Own(w, o, ReconciledNothing)
    case EffectUnclear => w
  }

  // The units a probe says landed, by their operation.
  function Said(o: OpId, p: Probe): map<UnitId, OpId> {
    map u | u in p.landed :: o
  }

  // The uncertain operations one after another: what a probe says landed is
  // kept in memory, and its operation owned at once. After them all, the
  // checkpoints are saved.
  function SettleAll(w: World, list: seq<OpId>, probes: map<OpId, Probe>, kept: map<UnitId, OpId>, stop: nat): World
    requires forall o :: o in list ==> o in w.ops && o in probes
    decreases |list|
  {
    if list == [] then
      if stop == 0 then w else w.(completed := kept)
    else
      var o, p := list[0], probes[list[0]];
      var more := kept + Said(o, p);
      if !Settles(p) then SettleAll(w, list[1..], probes, more, stop)
      else if stop == 0 then w
      else SettleAll(Settle(w, o, p), list[1..], probes, more, stop - 1)
  }

  function ReconcileStep(w: World, req: Request, list: seq<OpId>, probes: map<OpId, Probe>, stop: nat): World
    requires forall o :: o in list ==> o in w.ops && o in probes
  {
    if Admission(w, req) == RefuseOperation then w
    else SettleAll(w, list, probes, w.completed, stop)
  }

  // A truthful probe: what it says landed did. Once it says the effect is
  // settled, all that its operation landed and nobody checkpointed is said, and
  // nothing of it is still in flight; and committed means every unit wanted is
  // there. One that does not know yet may say as little as it likes.
  ghost predicate Truthful(w: World, o: OpId, p: Probe) {
    && (forall u :: u in p.landed ==> u in w.landed)
    && (Settles(p) ==> forall u :: u in w.landed && u !in w.completed && u in w.writer && w.writer[u] == o ==> u in p.landed)
    && (Settles(p) ==> forall u :: u in w.flying ==> w.flying[u] != o)
    && (p.effect == EffectCommitted ==> o in w.wanted && forall u :: u in w.wanted[o] ==> u in w.landed)
  }

  // ---- What every run keeps

  // Each landed unit is checkpointed or the work of an uncertain operation.
  ghost predicate Covered(w: World, u: UnitId) {
    u in w.completed || (u in w.writer && w.writer[u] in UncertainOps(w))
  }

  ghost predicate AtMostOnce(w: World) {
    forall u :: w.landed[u] <= 1
  }

  ghost predicate CommittedHasLanded(w: World) {
    forall o :: o in w.ops && w.ops[o].state == Committed && w.ops[o].phase == Executing
      ==> o in w.wanted && forall u :: u in w.wanted[o] ==> w.landed[u] == 1
  }

  ghost predicate Sound(w: World) {
    && AtMostOnce(w)
    && CommittedHasLanded(w)
    && (forall u :: u in w.completed ==> u in w.landed)
    && (forall u :: u in w.landed ==> Covered(w, u))
    && (forall u :: u in w.flying ==> u !in w.landed && u !in w.completed && w.flying[u] in UncertainOps(w))
    && (forall o :: o in UncertainOps(w) ==> w.ops[o].phase == Executing)
  }

  // Nothing is left to settle: what landed is checkpointed, nothing flies.
  ghost predicate Clear(w: World) {
    (forall u :: u in w.landed ==> u in w.completed) && w.flying == map[]
  }

  lemma {:induction false} SettledIsClear(w: World)
    requires Sound(w) && UncertainOps(w) == {}
    ensures Clear(w)
  {
    forall u | u in w.landed ensures u in w.completed {
      assert Covered(w, u);
    }
    assert w.flying.Keys == {};
  }

  lemma {:induction false} BeginKeeps(w: World, req: Request)
    requires Sound(w) && Admission(w, req) == WriteAdmitted
    ensures Sound(Begin(w, req)) && Clear(Begin(w, req)) && Begin(w, req).ops[req.op].state == Began
  {
    AdmittedMeansSettled(w, req);
    SettledIsClear(w);
    var b := Begin(w, req);
    assert UncertainOps(b) == {req.op};
    assert CommittedHasLanded(b);
  }

  // A unit not checkpointed while all is clear has not landed.
  lemma {:induction false} ClearUnit(w: World, u: UnitId)
    requires Clear(w) && u !in w.completed
    ensures w.landed[u] == 0 && u !in w.flying
  {
    assert u !in w.landed;
  }

  lemma {:induction false} WriteLandsOnce(w: World, o: OpId, u: UnitId, outcome: Outcome)
    requires AtMostOnce(w) && w.landed[u] == 0
    ensures AtMostOnce(WriteUnit(w, o, u, outcome))
  {
    forall x ensures WriteUnit(w, o, u, outcome).landed[x] <= 1 {
      assert w.landed[x] <= 1;
    }
  }

  lemma {:induction false} WriteStaysCovered(w: World, o: OpId, u: UnitId, outcome: Outcome)
    requires o in UncertainOps(w) && forall x :: x in w.landed ==> x in w.completed
    ensures var v := WriteUnit(w, o, u, outcome); forall x :: x in v.landed ==> Covered(v, x)
  {
    var v := WriteUnit(w, o, u, outcome);
    assert UncertainOps(v) == UncertainOps(w);
  }

  // Committed operations keep their units while units only land.
  lemma {:induction false} CommittedStays(w: World, v: World)
    requires CommittedHasLanded(w) && AtMostOnce(v)
    requires v.ops == w.ops && v.wanted == w.wanted && forall u :: u in w.landed ==> u in v.landed
    ensures CommittedHasLanded(v)
  {
  }

  lemma {:induction false} WriteStaysCommitted(w: World, o: OpId, u: UnitId, outcome: Outcome)
    requires CommittedHasLanded(w) && AtMostOnce(WriteUnit(w, o, u, outcome))
    ensures CommittedHasLanded(WriteUnit(w, o, u, outcome))
  {
    CommittedStays(w, WriteUnit(w, o, u, outcome));
  }

  lemma {:induction false} WriteFliesApart(w: World, o: OpId, u: UnitId, outcome: Outcome)
    requires w.flying == map[] && o in UncertainOps(w) && u !in w.completed && u !in w.landed
    ensures var v := WriteUnit(w, o, u, outcome);
            forall x :: x in v.flying ==> x !in v.landed && x !in v.completed && v.flying[x] in UncertainOps(v)
  {
    assert UncertainOps(WriteUnit(w, o, u, outcome)) == UncertainOps(w);
  }

  // One unit written by the operation that is under way.
  lemma {:induction false} WriteKeeps(w: World, o: OpId, u: UnitId, outcome: Outcome)
    requires Sound(w) && Clear(w) && o in UncertainOps(w) && u !in w.completed
    ensures Sound(WriteUnit(w, o, u, outcome))
  {
    ClearUnit(w, u);
    assert UncertainOps(WriteUnit(w, o, u, outcome)) == UncertainOps(w);
    WriteStaysCovered(w, o, u, outcome);
    WriteLandsOnce(w, o, u, outcome);
    WriteFliesApart(w, o, u, outcome);
    WriteStaysCommitted(w, o, u, outcome);
  }

  lemma {:induction false} CheckpointKeeps(w: World, o: OpId, u: UnitId)
    requires Sound(w) && Clear(w) && o in UncertainOps(w) && u !in w.completed
    ensures Sound(Checkpoint(WriteUnit(w, o, u, Lands), o, u)) && Clear(Checkpoint(WriteUnit(w, o, u, Lands), o, u))
  {
    WriteKeeps(w, o, u, Lands);
    var v := WriteUnit(w, o, u, Lands);
    var c := Checkpoint(v, o, u);
    assert UncertainOps(c) == UncertainOps(v);
    forall x | x in c.landed ensures x in c.completed {
      if x != u { assert x in w.landed; }
    }
  }

  lemma {:induction false} UnknownKeeps(w: World, o: OpId)
    requires Sound(w) && o in UncertainOps(w)
    ensures Sound(Own(w, o, Unknown))
  {
    var v := Own(w, o, Unknown);
    assert UncertainOps(v) == UncertainOps(w);
    forall x | x in v.landed ensures Covered(v, x) {
      assert Covered(w, x);
    }
  }

  // The state between two units of a run.
  ghost predicate Between(w: World, o: OpId) {
    Sound(w) && Clear(w) && o in w.ops && w.ops[o].state == Began
  }

  // What a run leaves the operation's own records as.
  ghost predicate SameWork(w: World, v: World, o: OpId) {
    o in w.ops && o in v.ops && v.wanted == w.wanted && v.ops[o].phase == w.ops[o].phase
  }

  lemma {:induction false} BetweenUnits(w: World, o: OpId, u: UnitId)
    requires Between(w, o) && u !in w.completed
    ensures Between(Checkpoint(WriteUnit(w, o, u, Lands), o, u), o)
    ensures SameWork(w, Checkpoint(WriteUnit(w, o, u, Lands), o, u), o)
  {
    assert o in UncertainOps(w);
    CheckpointKeeps(w, o, u);
  }

  // Wherever one unit's write is cut, or raises, the state is sound.
  lemma {:induction false} CutUnitKeeps(w: World, o: OpId, u: UnitId, outcome: Outcome)
    requires Between(w, o) && u !in w.completed
    ensures Sound(WriteUnit(w, o, u, outcome))
    ensures Sound(Own(WriteUnit(w, o, u, outcome), o, Unknown))
  {
    assert o in UncertainOps(w);
    WriteKeeps(w, o, u, outcome);
    UnknownKeeps(WriteUnit(w, o, u, outcome), o);
  }

  lemma {:induction false} RunKeeps(w: World, o: OpId, units: seq<UnitId>, outcomes: seq<Outcome>, stop: nat)
    requires Between(w, o) && |outcomes| == |units|
    ensures Sound(RunUnits(w, o, units, outcomes, stop).w)
    decreases |units|
  {
    if units == [] {
    } else if units[0] in w.completed {
      RunKeeps(w, o, units[1..], outcomes[1..], stop);
    } else {
      CutUnitKeeps(w, o, units[0], outcomes[0]);
      if stop >= 2 && outcomes[0] == Lands {
        BetweenUnits(w, o, units[0]);
        RunKeeps(Checkpoint(WriteUnit(w, o, units[0], Lands), o, units[0]), o, units[1..], outcomes[1..], stop - 2);
      }
    }
  }

  // A run that went through every unit left every unit checkpointed.
  lemma {:induction false} RunEnds(w: World, o: OpId, units: seq<UnitId>, outcomes: seq<Outcome>, stop: nat)
    requires Between(w, o) && |outcomes| == |units| && RunUnits(w, o, units, outcomes, stop).ended
    ensures var v := RunUnits(w, o, units, outcomes, stop).w;
            && Between(v, o) && SameWork(w, v, o)
            && (forall u :: u in w.completed ==> u in v.completed)
            && (forall u :: u in units ==> u in v.completed)
    decreases |units|
  {
    if units != [] {
      var u := units[0];
      if u in w.completed {
        RunEnds(w, o, units[1..], outcomes[1..], stop);
      } else {
        BetweenUnits(w, o, u);
        RunEnds(Checkpoint(WriteUnit(w, o, u, Lands), o, u), o, units[1..], outcomes[1..], stop - 2);
      }
    }
  }

  lemma {:induction false} CommitKeeps(w: World, o: OpId)
    requires Sound(w) && Clear(w) && o in w.ops && o in w.wanted && forall u :: u in w.wanted[o] ==> u in w.completed
    ensures Sound(Own(w, o, Committed))
  {
    var v := Own(w, o, Committed);
    assert UncertainOps(v) == UncertainOps(w) - {o};
    forall x | x in v.landed ensures Covered(v, x) {
      assert x in w.completed;
    }
  }

  // Every execute, cut anywhere, keeps the state sound.
  lemma {:induction false} ExecuteKeeps(w: World, req: Request, outcomes: seq<Outcome>, stop: nat)
    requires Sound(w) && |outcomes| == |req.units|
    ensures Sound(ExecuteStep(w, req, outcomes, stop))
  {
    if Admission(w, req) == WriteAdmitted && req.inScope && stop > 0 {
      BeginKeeps(w, req);
      RunKeeps(Begin(w, req), req.op, req.units, outcomes, stop - 1);
      var ran := RunUnits(Begin(w, req), req.op, req.units, outcomes, stop - 1);
      if ran.ended && ran.stop > 0 {
        RunEnds(Begin(w, req), req.op, req.units, outcomes, stop - 1);
        CommitKeeps(ran.w, req.op);
      }
    }
  }

  // ---- Plan, exactly

  predicate PlanOwns(w: World, req: Request, blocked: bool, stop: nat) {
    Admission(w, req) != RefuseOperation && Admission(w, req) != Deduplicated && !blocked && stop >= 2
  }

  // The operation has work on the target that only its own uncertainty tells of.
  ghost predicate HasLooseWork(w: World, o: OpId) {
    || (exists u :: u in w.landed && u !in w.completed && u in w.writer && w.writer[u] == o)
    || (exists u :: u in w.flying && w.flying[u] == o)
  }

  // A plan keeps the state sound exactly where the operation id it is owned
  // under is not one whose writes are still to be reconciled.
  lemma {:induction false} PlanKeepsExactly(w: World, req: Request, blocked: bool, plan: string, stop: nat)
    requires Sound(w)
    ensures Sound(PlanStep(w, req, blocked, plan, stop))
       <==> !(PlanOwns(w, req, blocked, stop) && req.op in UncertainOps(w) && HasLooseWork(w, req.op))
  {
    var v := PlanStep(w, req, blocked, plan, stop);
    if !PlanOwns(w, req, blocked, stop) {
      SameRecords(w, v);
    } else {
      assert UncertainOps(v) == UncertainOps(w) - {req.op};
      PlanOwned(w, v, req.op);
    }
  }

  lemma {:induction false} SameRecords(w: World, v: World)
    requires Sound(w) && v == w.(plan := v.plan, refused := v.refused)
    ensures Sound(v)
  {
    assert UncertainOps(v) == UncertainOps(w);
    forall u | u in v.landed ensures Covered(v, u) {
      assert Covered(w, u);
    }
  }

  lemma {:induction false} PlanOwned(w: World, v: World, o: OpId)
    requires Sound(w) && o in v.ops && v.ops[o].phase == Planning && v == w.(ops := w.ops[o := v.ops[o]], plan := v.plan)
    requires UncertainOps(v) == UncertainOps(w) - {o}
    ensures Sound(v) <==> !(o in UncertainOps(w) && HasLooseWork(w, o))
  {
    if o in UncertainOps(w) && HasLooseWork(w, o) {
      if u :| u in w.landed && u !in w.completed && u in w.writer && w.writer[u] == o {
        assert !Covered(v, u);
      }
    } else {
      forall u | u in v.landed ensures Covered(v, u) {
        assert Covered(w, u);
      }
      forall x | x in UncertainOps(v) ensures v.ops[x].phase == Executing {
        assert x in UncertainOps(w) && v.ops[x] == w.ops[x];
      }
    }
  }

  // ---- Reconcile, exactly

  ghost predicate Enumerates(list: seq<OpId>, ops: set<OpId>) {
    && (forall o :: o in list <==> o in ops)
    && (forall i, j :: 0 <= i < j < |list| ==> list[i] != list[j])
  }

  // The operations settled before the stop, in the order they are gone through.
  function SettledBy(list: seq<OpId>, probes: map<OpId, Probe>, stop: nat): (s: set<OpId>)
    requires forall o :: o in list ==> o in probes
    ensures forall o :: o in s ==> o in list && Settles(probes[o])
  {
    if list == [] || (Settles(probes[list[0]]) && stop == 0) then {}
    else if Settles(probes[list[0]]) then {list[0]} + SettledBy(list[1..], probes, stop - 1)
    else SettledBy(list[1..], probes, stop)
  }

  // Whether the checkpoints are saved before the stop: one write more than
  // there are operations to settle.
  function Settling(list: seq<OpId>, probes: map<OpId, Probe>): nat
    requires forall o :: o in list ==> o in probes
  {
    if list == [] then 0 else (if Settles(probes[list[0]]) then 1 else 0) + Settling(list[1..], probes)
  }

  predicate Saved(list: seq<OpId>, probes: map<OpId, Probe>, stop: nat)
    requires forall o :: o in list ==> o in probes
  {
    stop > Settling(list, probes)
  }

  function SettledOp(op: Op, p: Probe): Op {
    if p.effect == EffectCommitted then op.(state := Committed) else op.(state := ReconciledNothing)
  }

  function WithSettled(w: World, probes: map<OpId, Probe>, settled: set<OpId>): World
    requires forall o :: o in settled ==> o in probes
  {
    w.(ops := map o | o in w.ops :: if o in settled then SettledOp(w.ops[o], probes[o]) else w.ops[o])
  }

  function KeptAfter(list: seq<OpId>, probes: map<OpId, Probe>, kept: map<UnitId, OpId>): map<UnitId, OpId>
    requires forall o :: o in list ==> o in probes
  {
    if list == [] then kept
    else KeptAfter(list[1..], probes, kept + Said(list[0], probes[list[0]]))
  }

  lemma {:induction false} KeptAfterHas(list: seq<OpId>, probes: map<OpId, Probe>, kept: map<UnitId, OpId>, u: UnitId)
    requires forall o :: o in list ==> o in probes
    ensures u in KeptAfter(list, probes, kept) <==> u in kept || exists o :: o in list && u in probes[o].landed
  {
    if list != [] {
      KeptAfterHas(list[1..], probes, kept + Said(list[0], probes[list[0]]), u);
      assert forall o :: o in list <==> o == list[0] || o in list[1..];
    }
  }

  lemma {:induction false} NoneSettled(w: World, probes: map<OpId, Probe>)
    ensures WithSettled(w, probes, {}) == w
  {
    assert WithSettled(w, probes, {}).ops == w.ops;
  }

  lemma {:induction false} OneMoreSettled(w: World, o: OpId, probes: map<OpId, Probe>, settled: set<OpId>)
    requires o in w.ops && o in probes && Settles(probes[o]) && o !in settled && forall x :: x in settled ==> x in probes
    ensures WithSettled(Settle(w, o, probes[o]), probes, settled) == WithSettled(w, probes, {o} + settled)
  {
    assert WithSettled(Settle(w, o, probes[o]), probes, settled).ops == WithSettled(w, probes, {o} + settled).ops;
  }

  // The world with its settled operations owned and, where the save was
  // reached, the checkpoints with all the probes said.
  function Reconciled(w: World, list: seq<OpId>, probes: map<OpId, Probe>, kept: map<UnitId, OpId>, stop: nat): World
    requires forall o :: o in list ==> o in probes
  {
    var v := WithSettled(w, probes, SettledBy(list, probes, stop));
    if Saved(list, probes, stop) then v.(completed := KeptAfter(list, probes, kept)) else v
  }

  // What the loop leaves, said without the loop.
  lemma {:induction false} SettleAllIs(w: World, list: seq<OpId>, probes: map<OpId, Probe>, kept: map<UnitId, OpId>, stop: nat)
    requires forall o :: o in list ==> o in w.ops && o in probes
    requires forall i, j :: 0 <= i < j < |list| ==> list[i] != list[j]
    ensures SettleAll(w, list, probes, kept, stop) == Reconciled(w, list, probes, kept, stop)
    decreases |list|
  {
    if list == [] {
      NoneSettled(w, probes);
    } else {
      var o, p, rest := list[0], probes[list[0]], list[1..];
      var more := kept + Said(o, p);
      if !Settles(p) {
        SettleAllIs(w, rest, probes, more, stop);
      } else if stop == 0 {
        NoneSettled(w, probes);
      } else {
        SettleAllIs(Settle(w, o, p), rest, probes, more, stop - 1);
        OneMoreSettled(w, o, probes, SettledBy(rest, probes, stop - 1));
      }
    }
  }

  ghost predicate AllTruthful(w: World, list: seq<OpId>, probes: map<OpId, Probe>) {
    forall o :: o in list ==> o in w.ops && o in probes && Truthful(w, o, probes[o])
  }

  // A stop that comes after an operation is settled and before the
  // checkpoints are saved, while that operation has landed units no
  // checkpoint holds.
  ghost predicate LosesUnits(w: World, list: seq<OpId>, probes: map<OpId, Probe>, stop: nat)
    requires forall o :: o in list ==> o in probes
  {
    !Saved(list, probes, stop) &&
    exists u :: u in w.landed && u !in w.completed && u in w.writer && w.writer[u] in SettledBy(list, probes, stop)
  }

  lemma {:induction false} SettledStillCommitted(w: World, list: seq<OpId>, probes: map<OpId, Probe>, settled: set<OpId>)
    requires Sound(w) && AllTruthful(w, list, probes) && forall o :: o in settled ==> o in list
    ensures CommittedHasLanded(WithSettled(w, probes, settled))
  {
    var v := WithSettled(w, probes, settled);
    forall o | o in v.ops && v.ops[o].state == Committed && v.ops[o].phase == Executing
      ensures o in v.wanted && forall u :: u in v.wanted[o] ==> v.landed[u] == 1
    {
      if o in settled {
        assert Truthful(w, o, probes[o]);
        forall u | u in v.wanted[o] ensures v.landed[u] == 1 {
          assert u in w.landed && w.landed[u] <= 1;
        }
      }
    }
  }

  lemma {:induction false} SettledUncertain(w: World, list: seq<OpId>, probes: map<OpId, Probe>, stop: nat)
    requires forall o :: o in list ==> o in w.ops && o in probes
    ensures UncertainOps(WithSettled(w, probes, SettledBy(list, probes, stop))) == UncertainOps(w) - SettledBy(list, probes, stop)
  {
  }

  lemma {:induction false} SavedSettlesAll(list: seq<OpId>, probes: map<OpId, Probe>, stop: nat, o: OpId)
    requires (forall x :: x in list ==> x in probes) && Saved(list, probes, stop) && o in list && Settles(probes[o])
    ensures o in SettledBy(list, probes, stop)
  {
    if o != list[0] {
      SavedSettlesAll(list[1..], probes, if Settles(probes[list[0]]) then stop - 1 else stop, o);
    }
  }

  lemma {:induction false} FlyingStaysUncertain(w: World, list: seq<OpId>, probes: map<OpId, Probe>, stop: nat)
    requires Sound(w) && Enumerates(list, UncertainOps(w)) && AllTruthful(w, list, probes)
    ensures forall u :: u in w.flying ==> w.flying[u] in UncertainOps(w) - SettledBy(list, probes, stop)
  {
    forall u | u in w.flying ensures w.flying[u] in UncertainOps(w) - SettledBy(list, probes, stop) {
      var o := w.flying[u];
      assert o in UncertainOps(w) && o in list && Truthful(w, o, probes[o]);
    }
  }

  lemma {:induction false} CutReconcile(w: World, list: seq<OpId>, probes: map<OpId, Probe>, stop: nat)
    requires Sound(w) && Enumerates(list, UncertainOps(w)) && AllTruthful(w, list, probes) && !Saved(list, probes, stop)
    ensures Sound(WithSettled(w, probes, SettledBy(list, probes, stop))) <==> !LosesUnits(w, list, probes, stop)
  {
    var settled := SettledBy(list, probes, stop);
    var v := WithSettled(w, probes, settled);
    SettledUncertain(w, list, probes, stop);
    SettledStillCommitted(w, list, probes, settled);
    FlyingStaysUncertain(w, list, probes, stop);
    forall u | u in w.landed ensures Covered(v, u) <==> !(u !in w.completed && u in w.writer && w.writer[u] in settled) {
      assert Covered(w, u);
    }
  }

  lemma {:induction false} SavedReconcile(w: World, list: seq<OpId>, probes: map<OpId, Probe>, stop: nat)
    requires Sound(w) && Enumerates(list, UncertainOps(w)) && AllTruthful(w, list, probes) && Saved(list, probes, stop)
    ensures Sound(WithSettled(w, probes, SettledBy(list, probes, stop)).(completed := KeptAfter(list, probes, w.completed)))
  {
    var settled := SettledBy(list, probes, stop);
    var v := WithSettled(w, probes, settled).(completed := KeptAfter(list, probes, w.completed));
    SettledUncertain(w, list, probes, stop);
    assert UncertainOps(v) == UncertainOps(w) - settled;
    SettledStillCommitted(w, list, probes, settled);
    FlyingStaysUncertain(w, list, probes, stop);
    forall u | u in v.completed ensures u in v.landed {
      KeptAfterHas(list, probes, w.completed, u);
      if u !in w.completed {
        var o :| o in list && u in probes[o].landed;
        assert Truthful(w, o, probes[o]);
      }
    }
    forall u | u in v.landed ensures Covered(v, u) {
      KeptAfterHas(list, probes, w.completed, u);
      assert Covered(w, u);
      if u !in w.completed {
        assert Truthful(w, w.writer[u], probes[w.writer[u]]);
      }
    }
  }

  // A reconcile with truthful probes keeps the state sound exactly where it
  // is not stopped between settling an operation and saving what it landed.
  lemma {:induction false} ReconcileKeepsExactly(w: World, req: Request, list: seq<OpId>, probes: map<OpId, Probe>, stop: nat)
    requires Sound(w) && Enumerates(list, UncertainOps(w)) && AllTruthful(w, list, probes)
    ensures Sound(ReconcileStep(w, req, list, probes, stop))
       <==> !(Admission(w, req) != RefuseOperation && LosesUnits(w, list, probes, stop))
  {
    if Admission(w, req) != RefuseOperation {
      SettleAllIs(w, list, probes, w.completed, stop);
      if Saved(list, probes, stop) {
        SavedReconcile(w, list, probes, stop);
      } else {
        CutReconcile(w, list, probes, stop);
      }
    }
  }

  // ---- Runs

  datatype Event =
    | ExecuteCall(req: Request, outcomes: seq<Outcome>, stop: nat)
    | PlanCall(req: Request, blocked: bool, plan: string, stop: nat)
    | ReconcileCall(req: Request, list: seq<OpId>, probes: map<OpId, Probe>, stop: nat)
    | Arrives(unit: UnitId)
    | Vanishes(unit: UnitId)

  // An event that can happen: probes are truthful, and only a write in flight
  // arrives or vanishes.
  ghost predicate Possible(w: World, e: Event) {
    match e
    case ExecuteCall(req, outcomes, _) => |outcomes| == |req.units|
    case PlanCall(_, _, _, _) => true
    case ReconcileCall(_, list, probes, _) => Enumerates(list, UncertainOps(w)) && AllTruthful(w, list, probes)
    case Arrives(u) => u in w.flying
    case Vanishes(u) => u in w.flying
  }

  ghost function Step(w: World, e: Event): World
    requires Possible(w, e)
  {
    match e
    case ExecuteCall(req, outcomes, stop) => ExecuteStep(w, req, outcomes, stop)
    case PlanCall(req, blocked, plan, stop) => PlanStep(w, req, blocked, plan, stop)
    case ReconcileCall(req, list, probes, stop) => ReconcileStep(w, req, list, probes, stop)
    case Arrives(u) => w.(landed := w.landed + multiset{u}, writer := w.writer[u := w.flying[u]], flying := w.flying - {u})
    case Vanishes(u) => w.(flying := w.flying - {u})
  }

  // The two places a call gives up what an operation's uncertainty guards.
  ghost predicate Harmless(w: World, e: Event)
    requires Possible(w, e)
  {
    match e
    case PlanCall(req, blocked, _, stop) => !(PlanOwns(w, req, blocked, stop) && req.op in UncertainOps(w) && HasLooseWork(w, req.op))
    case ReconcileCall(req, list, probes, stop) => !(Admission(w, req) != RefuseOperation && LosesUnits(w, list, probes, stop))
    case _ => true
  }

  lemma {:induction false} ArrivalKeeps(w: World, u: UnitId)
    requires Sound(w) && u in w.flying
    ensures Sound(Step(w, Arrives(u))) && Sound(Step(w, Vanishes(u)))
  {
    var v, x := Step(w, Arrives(u)), Step(w, Vanishes(u));
    assert UncertainOps(v) == UncertainOps(w) == UncertainOps(x);
    assert w.landed[u] == 0;
    forall y ensures v.landed[y] <= 1 { assert w.landed[y] <= 1; }
    CommittedStays(w, v);
    forall y | y in v.landed ensures Covered(v, y) {
      if y != u { assert y in w.landed && Covered(w, y); }
    }
    forall y | y in x.landed ensures Covered(x, y) { assert Covered(w, y); }
  }

  // Every step from a sound state keeps it sound exactly where it is harmless.
  lemma {:induction false} StepKeepsExactly(w: World, e: Event)
    requires Sound(w) && Possible(w, e)
    ensures Sound(Step(w, e)) <==> Harmless(w, e)
  {
    match e
    case ExecuteCall(req, outcomes, stop) => ExecuteKeeps(w, req, outcomes, stop);
    case PlanCall(req, blocked, plan, stop) => PlanKeepsExactly(w, req, blocked, plan, stop);
    case ReconcileCall(req, list, probes, stop) => ReconcileKeepsExactly(w, req, list, probes, stop);
    case Arrives(u) => ArrivalKeeps(w, u);
    case Vanishes(u) => ArrivalKeeps(w, u);
  }

  // A run: worlds from the empty one, each the step before it made.
  ghost predicate IsRun(ws: seq<World>, es: seq<Event>) {
    && |ws| == |es| + 1 && ws[0] == START
    && forall i :: 0 <= i < |es| ==> Possible(ws[i], es[i]) && ws[i + 1] == Step(ws[i], es[i])
  }

  // Over every run of executes, plans and reconciles, stopped anywhere but in
  // the two harmful places, no unit takes effect twice and a committed
  // execute has every unit it was begun for landed exactly once.
  lemma {:induction false} RunsLandOnce(ws: seq<World>, es: seq<Event>)
    requires IsRun(ws, es)
    requires forall i :: 0 <= i < |es| ==> Possible(ws[i], es[i]) && Harmless(ws[i], es[i])
    ensures forall i :: 0 <= i < |ws| ==> AtMostOnce(ws[i]) && CommittedHasLanded(ws[i])
    ensures Sound(ws[|es|])
  {
    if es != [] {
      var n := |es| - 1;
      RunsLandOnce(ws[..n + 1], es[..n]);
      assert ws[..n + 1][n] == ws[n];
      StepKeepsExactly(ws[n], es[n]);
      forall i | 0 <= i < |ws| ensures AtMostOnce(ws[i]) && CommittedHasLanded(ws[i]) {
        if i <= n { assert ws[..n + 1][i] == ws[i]; }
      }
    }
  }

  // Where a landed unit is covered by nothing, the next execute that is
  // admitted for it lands it again.
  lemma {:induction false} LostUnitLandsTwice(w: World, req: Request, u: UnitId, stop: nat)
    requires u in w.landed && u !in w.completed
    requires Admission(w, req) == WriteAdmitted && req.inScope && req.units == [u] && stop >= 2
    ensures ExecuteStep(w, req, [Lands], stop).landed[u] == w.landed[u] + 1 >= 2
  {
    var b := Begin(w, req);
    var written := WriteUnit(b, req.op, u, Lands);
    if stop > 2 {
      assert RunUnits(b, req.op, [u], [Lands], stop - 1)
          == RunUnits(Checkpoint(written, req.op, u), req.op, [u][1..], [Lands][1..], stop - 3);
    }
  }

  // ---- A run that lands a unit twice

  function Asking(op: OpId, execute: bool, fingerprint: string, units: seq<UnitId>): Request {
    Request(op, execute, fingerprint, units, true, Some("plan"), false, true, true, true, execute)
  }

  const PLANNED := START.(plan := Some("plan"))
  const STOPPED := PLANNED.(
    ops := map["a" := Op(Began, Executing, "fa")], wanted := map["a" := {"u"}], landed := multiset{"u"}, writer := map["u" := "a"])
  const SETTLED := STOPPED.(ops := map["a" := Op(Committed, Executing, "fa")])

  // The first execute is stopped between its write and its checkpoint.
  lemma {:induction false} StoppedBeforeCheckpoint()
    ensures ExecuteStep(PLANNED, Asking("a", true, "fa", ["u"]), [Lands], 2) == STOPPED
  {
    var req := Asking("a", true, "fa", ["u"]);
    var b := Begin(PLANNED, req);
    assert UncertainOps(PLANNED) == {};
    assert Admission(PLANNED, req) == WriteAdmitted;
    assert RunUnits(b, "a", ["u"], [Lands], 1) == Ran(WriteUnit(b, "a", "u", Lands), 0, false);
    assert (set x | x in ["u"]) == {"u"};
    assert b.ops == STOPPED.ops && b.wanted == STOPPED.wanted;
  }

  // The reconcile is stopped between settling it and saving the checkpoints.
  lemma {:induction false} SettledBeforeSave(req: Request)
    requires Admission(STOPPED, req) != RefuseOperation
    ensures Enumerates(["a"], UncertainOps(STOPPED))
    ensures AllTruthful(STOPPED, ["a"], map["a" := Probe(EffectCommitted, {"u"})])
    ensures ReconcileStep(STOPPED, req, ["a"], map["a" := Probe(EffectCommitted, {"u"})], 1) == SETTLED
  {
    var probes := map["a" := Probe(EffectCommitted, {"u"})];
    assert UncertainOps(STOPPED) == {"a"};
    assert SettleAll(STOPPED, ["a"], probes, map[], 1)
        == SettleAll(Settle(STOPPED, "a", probes["a"]), ["a"][1..], probes, map[] + Said("a", probes["a"]), 0);
    assert Own(STOPPED, "a", Committed).ops == SETTLED.ops;
  }

  // So a run exists, each step possible and every probe truthful, after which
  // the unit has taken effect twice.
  lemma {:induction false} CutReconcileLandsTwice()
    ensures var look := Asking("r", false, "fr", []);
            && Admission(STOPPED, look) == ReadOnly
            && ExecuteStep(PLANNED, Asking("a", true, "fa", ["u"]), [Lands], 2) == STOPPED
            && (forall o :: o in ["a"] ==> o in STOPPED.ops && o in map["a" := Probe(EffectCommitted, {"u"})])
            && ReconcileStep(STOPPED, look, ["a"], map["a" := Probe(EffectCommitted, {"u"})], 1) == SETTLED
            && ExecuteStep(SETTLED, Asking("b", true, "fb", ["u"]), [Lands], 9).landed["u"] == 2
  {
    var look, again := Asking("r", false, "fr", []), Asking("b", true, "fb", ["u"]);
    assert Admission(STOPPED, look) == ReadOnly;
    StoppedBeforeCheckpoint();
    SettledBeforeSave(look);
    assert UncertainOps(SETTLED) == {};
    assert Admission(SETTLED, again) == WriteAdmitted;
    LostUnitLandsTwice(SETTLED, again, "u", 9);
    assert SETTLED.landed["u"] == 1;
  }

  // ---- The controller

  // One hop's controller: the fields are what outlives a stop.
  class Controller {
    var ops: map<OpId, Op>
    var completed: map<UnitId, OpId>
    var plan: Option<string>
    var refused: bool
    var landed: multiset<UnitId>
    var writer: map<UnitId, OpId>
    var flying: map<UnitId, OpId>
    var wanted: map<OpId, set<UnitId>>

    constructor ()
      ensures State() == START
    {
      ops, completed, plan, refused := map[], map[], None, false;
      landed, writer, flying, wanted := multiset{}, map[], map[], map[];
    }

    function State(): World
      reads this
    {
      World(ops, completed, plan, refused, landed, writer, flying, wanted)
    }

    method OwnAs(o: OpId, state: State)
      requires o in ops
      modifies this
      ensures State() == Own(old(State()), o, state)
    {
      ops := ops[o := ops[o].(state := state)];
    }

    method Write(o: OpId, u: UnitId, outcome: Outcome)
      modifies this
      ensures State() == WriteUnit(old(State()), o, u, outcome)
    {
      match outcome
      case Lands => landed, writer := landed + multiset{u}, writer[u := o];
      case RaisesLanded => landed, writer := landed + multiset{u}, writer[u := o];
      case RaisesNothing =>
      case RaisesFlying => flying := flying[u := o];
    }

    // The units one after another, with `stop` writes before the process ends.
    method Run(o: OpId, units: seq<UnitId>, outcomes: seq<Outcome>, stop: nat) returns (left: nat, ended: bool)
      requires |outcomes| == |units| && o in ops
      modifies this
      ensures Ran(State(), left, ended) == RunUnits(old(State()), o, units, outcomes, stop)
      ensures o in ops
    {
      left, ended := stop, false;
      for i := 0 to |units|
        invariant o in ops
        invariant RunUnits(State(), o, units[i..], outcomes[i..], left) == RunUnits(old(State()), o, units, outcomes, stop)
      {
        var u := units[i];
        assert units[i..][1..] == units[i + 1..] && outcomes[i..][1..] == outcomes[i + 1..];
        if u in completed {
          continue;
        }
        if left == 0 { return; }
        Write(o, u, outcomes[i]);
        if left == 1 { left := 0; return; }
        left := left - 2;
        if outcomes[i] != Lands {
          OwnAs(o, Unknown);
          return;
        }
        completed := completed[u := o];
      }
      ended := true;
    }

    // One execute, with `stop` writes before the process ends.
    method Execute(req: Request, outcomes: seq<Outcome>, stop: nat)
      requires |outcomes| == |req.units|
      modifies this
      ensures State() == ExecuteStep(old(State()), req, outcomes, stop)
    {
      if Admission(State(), req) != WriteAdmitted || !req.inScope || stop == 0 {
        return;
      }
      ops := ops[req.op := Op(Began, Executing, req.fingerprint)];
      wanted := wanted[req.op := set u | u in req.units];
      var left, ended := Run(req.op, req.units, outcomes, stop - 1);
      if ended && left > 0 {
        OwnAs(req.op, Committed);
      }
    }

    // One plan, with `stop` writes before the process ends.
    method MakePlan(req: Request, blocked: bool, made: string, stop: nat)
      modifies this
      ensures State() == PlanStep(old(State()), req, blocked, made, stop)
    {
      var rung := Admission(State(), req);
      if rung == RefuseOperation || rung == Deduplicated || stop == 0 {
        return;
      }
      if blocked {
        refused := true;
        return;
      }
      if plan.None? {
        plan := Some(made);
      }
      if stop > 1 {
        ops := ops[req.op := Op(Committed, Planning, req.fingerprint)];
      }
    }

    // One reconcile over the uncertain operations, with `stop` writes before
    // the process ends.
    method Reconcile(req: Request, list: seq<OpId>, probes: map<OpId, Probe>, stop: nat)
      requires forall o :: o in list ==> o in ops && o in probes
      modifies this
      ensures State() == ReconcileStep(old(State()), req, list, probes, stop)
    {
      if Admission(State(), req) == RefuseOperation {
        return;
      }
      ghost var goal := SettleAll(State(), list, probes, completed, stop);
      var kept, left, i := completed, stop, 0;
      while i < |list|
        invariant 0 <= i <= |list| && forall o :: o in list ==> o in ops && o in probes
        invariant SettleAll(State(), list[i..], probes, kept, left) == goal
      {
        var o := list[i];
        assert list[i..][1..] == list[i + 1..];
        var p := probes[o];
        kept := kept + Said(o, p);
        if Settles(p) {
          if left == 0 { return; }
          OwnAs(o, if p.effect == EffectCommitted then Committed else ReconciledNothing);
          left := left - 1;
        }
        i := i + 1;
      }
      if left > 0 {
        completed := kept;
      }
    }
  }
}
