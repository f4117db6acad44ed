// How far a stream has been read, retained, applied, proved and acknowledged
// (`migkit/ack_lattice.py`).
module AckLattice {
  import opened LastEvent

  datatype Lattice = Lattice(read: int, retained: int, applied: int, proved: int, ack: int)

  const START := Lattice(0, 0, 0, 0, 0)

  function Max(a: int, b: int): int { if a < b then b else a }

  function Min(a: int, b: int): int { if a < b then a else b }

  // No stage ahead of one it rests on.
  predicate InStep(l: Lattice) { l.ack <= l.retained <= l.read && l.proved <= l.applied <= l.read }

  predicate Under(a: Lattice, b: Lattice) {
    a.read <= b.read && a.retained <= b.retained && a.applied <= b.applied && a.proved <= b.proved && a.ack <= b.ack
  }

  // ---- Advancing

  datatype Stage = Read | Retained | Applied | Proved | Acked

  function At(l: Lattice, s: Stage): int {
    match s
    case Read => l.read case Retained => l.retained case Applied => l.applied case Proved => l.proved case Acked => l.ack
  }

  // The least lattice in step, no lower anywhere, whose stage is that far.
  ghost predicate Reaches(l: Lattice, s: Stage, p: int, r: Lattice) {
    && Under(l, r) && InStep(r) && p <= At(r, s)
    && (forall x :: Under(l, x) && InStep(x) && p <= At(x, s) ==> Under(r, x))
  }

  function Advanced(l: Lattice, s: Stage, p: int): Lattice {
    match s
    case Read => l.(read := Max(l.read, p))
    case Retained => if p < l.retained then l else l.(retained := p, read := Max(l.read, p))
    case Applied => if p < l.applied then l else l.(applied := p, read := Max(l.read, p))
    case Proved =>
      if p < l.proved then l else var applied := Max(l.applied, p); l.(proved := p, applied := applied, read := Max(l.read, applied))
    case Acked => l.(ack := Max(l.ack, p))
  }

  // Every advance goes just as far as it must to stay in step - an
  // acknowledgement where it is not past what is retained.
  lemma {:induction false} AdvanceReaches(l: Lattice, s: Stage, p: int)
    requires InStep(l)
    ensures s != Acked || p <= l.retained ==> Reaches(l, s, p, Advanced(l, s, p))
    ensures s == Acked && p > l.retained ==> !InStep(Advanced(l, s, p))
  {
  }

  // ---- The lattice itself

  function Join(a: Lattice, b: Lattice): Lattice {
    Lattice(Max(a.read, b.read), Max(a.retained, b.retained), Max(a.applied, b.applied), Max(a.proved, b.proved), Max(a.ack, b.ack))
  }

  function Meet(a: Lattice, b: Lattice): Lattice {
    Lattice(Min(a.read, b.read), Min(a.retained, b.retained), Min(a.applied, b.applied), Min(a.proved, b.proved), Min(a.ack, b.ack))
  }

  // The join is the least over both and the meet the greatest under both, and
  // both are in step where both of theirs are.
  lemma {:induction false} JoinAndMeet(a: Lattice, b: Lattice, x: Lattice)
    ensures Under(a, x) && Under(b, x) <==> Under(Join(a, b), x)
    ensures Under(x, a) && Under(x, b) <==> Under(x, Meet(a, b))
    ensures InStep(a) && InStep(b) ==> InStep(Join(a, b)) && InStep(Meet(a, b))
    ensures Under(a, b) && Under(b, a) <==> a == b
  {
  }

  // Advancing one and joining another is advancing the join.
  lemma {:induction false} AdvanceJoins(a: Lattice, b: Lattice, s: Stage, p: int)
    requires InStep(a) && InStep(b) && (s == Acked ==> p <= a.retained)
    ensures Join(Advanced(a, s, p), b) == Advanced(Join(a, b), s, p)
  {
  }

  // ---- Authorizing the cutover

  predicate Authorized(l: Lattice, required: Option<int>) {
    var target := if required.Some? then required.value else l.read;
    l.applied >= target && l.proved >= target && l.ack <= l.retained
  }

  // In step, the proof alone decides: whatever the source was told, and
  // with nothing required only once all that was read is proved.
  lemma {:induction false} ProofDecides(l: Lattice, required: Option<int>)
    requires InStep(l)
    ensures Authorized(l, required) <==> (if required.Some? then required.value <= l.proved else l.read == l.proved)
  {
  }

  // ---- The positions, advanced in place

  datatype Outcome = Position(at: int) | Regression | AckRefused

  class PositionLattice {
    var readPos: int
    var retainedPos: int
    var appliedPos: int
    var provedPos: int
    var sourceAckPos: int
    const strict: bool

    constructor (l: Lattice, strict: bool)
      ensures Now() == l && this.strict == strict
    {
      readPos, retainedPos, appliedPos, provedPos, sourceAckPos := l.read, l.retained, l.applied, l.proved, l.ack;
      this.strict := strict;
    }

    function Now(): Lattice
      reads this
    {
      Lattice(readPos, retainedPos, appliedPos, provedPos, sourceAckPos)
    }

    method AdvanceRead(p: int) returns (r: Outcome)
      modifies this
      ensures Now() == Advanced(old(Now()), Read, p)
      ensures r == if strict && p < old(readPos) then Regression else Position(readPos)
    {
      if p < readPos {
        return if strict then Regression else Position(readPos);
      }
      readPos := p;
      return Position(readPos);
    }

    method AdvanceRetained(p: int) returns (r: Outcome)
      modifies this
      ensures Now() == Advanced(old(Now()), Retained, p)
      ensures r == if strict && p < old(retainedPos) then Regression else Position(retainedPos)
    {
      if p < retainedPos {
        return if strict then Regression else Position(retainedPos);
      }
      retainedPos := p;
      if retainedPos > readPos {
        readPos := retainedPos;
      }
      return Position(retainedPos);
    }

    method AdvanceApplied(p: int) returns (r: Outcome)
      modifies this
      ensures Now() == Advanced(old(Now()), Applied, p)
      ensures r == if strict && p < old(appliedPos) then Regression else Position(appliedPos)
    {
      if p < appliedPos {
        return if strict then Regression else Position(appliedPos);
      }
      appliedPos := p;
      if appliedPos > readPos {
        readPos := appliedPos;
      }
      return Position(appliedPos);
    }

    method AdvanceProved(p: int) returns (r: Outcome)
      modifies this
      ensures Now() == Advanced(old(Now()), Proved, p)
      ensures r == if strict && p < old(provedPos) then Regression else Position(provedPos)
    {
      if p < provedPos {
        return if strict then Regression else Position(provedPos);
      }
      provedPos := p;
      if provedPos > appliedPos {
        appliedPos := provedPos;
      }
      if appliedPos > readPos {
        readPos := appliedPos;
      }
      return Position(provedPos);
    }

    // Refused, and nothing changed, past what is retained.
    method AckSource(p: int) returns (r: Outcome)
      modifies this
      ensures Now() == if p <= old(retainedPos) then Advanced(old(Now()), Acked, p) else old(Now())
      ensures r == if p > old(retainedPos) then AckRefused
                   else if strict && p < old(sourceAckPos) then Regression else Position(sourceAckPos)
    {
      if p > retainedPos {
        return AckRefused;
      }
      if p < sourceAckPos {
        return if strict then Regression else Position(sourceAckPos);
      }
      sourceAckPos := p;
      return Position(sourceAckPos);
    }
  }
}
