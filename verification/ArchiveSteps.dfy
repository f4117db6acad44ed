// Rows copied to an archive, taken off the source and put back, each step
// stopped anywhere (`migkit/archive.py`).
module ArchiveSteps {
  import opened Extremes
  import opened LastEvent
  import opened Names

  datatype Key = Key(table: Name, id: string)

  // A row is the texts of its columns; one digest, one row.
  type Row = seq<string>

  type Rows = map<Key, Row>

  datatype Said = Removing | Removed | Restored

  datatype Line = Line(said: Said, table: Name, keys: set<Key>)

  datatype Store = Store(source: Rows, archive: Rows, ledger: seq<Line>)

  function Only(rows: Rows, keys: set<Key>): Rows { map k | k in rows && k in keys :: rows[k] }

  // ---- Steps

  // Of a batch read on the source: what the archive does not hold, what it
  // holds otherwise, and what it holds as the source has it.
  function New(s: Store, part: set<Key>): set<Key> { set k | k in part && k in s.source && k !in s.archive }

  function Otherwise(s: Store, part: set<Key>): set<Key> {
    set k | k in part && k in s.source && k in s.archive && s.archive[k] != s.source[k]
  }

  function Alike(s: Store, part: set<Key>): set<Key> {
    set k | k in part && k in s.source && k in s.archive && s.archive[k] == s.source[k]
  }

  // Each step is carried out whole, or stopped once the rows named landed.
  // A batch taken stops after its keys are in the ledger; between steps the
  // source is written by others.
  datatype Move =
    | Copy(part: set<Key>, stop: Option<set<Key>>)
    | Take(table: Name, part: set<Key>, stop: Option<set<Key>>)
    | PutBack(line: Line, stop: Option<set<Key>>)
    | Wrote(key: Key, row: Row)
    | Erased(key: Key)

  function Landed(keys: set<Key>, stop: Option<set<Key>>): set<Key> {
    if stop.Some? then keys * stop.value else keys
  }

  function Step(s: Store, e: Move): Store {
    match e
    case Copy(part, stop) => s.(archive := s.archive + Only(s.source, Landed(New(s, part), stop)))
    case Take(table, part, stop) =>
      var go := Alike(s, part);
      if go == {} then s
      else s.(source := s.source - Landed(go, stop),
              ledger := s.ledger + [Line(Removing, table, go)] + (if stop.None? then [Line(Removed, table, go)] else []))
    case PutBack(line, stop) =>
      if line.keys <= s.archive.Keys then
        s.(source := s.source + Only(s.archive, Landed(line.keys, stop)),
           ledger := s.ledger + (if stop.None? then [line.(said := Restored)] else []))
      else s
    case Wrote(key, row) => s.(source := s.source[key := row])
    case Erased(key) => s.(source := s.source - {key})
  }

  function Run(s: Store, es: seq<Move>): Store {
    if es == [] then s else Step(Run(s, es[..|es| - 1]), es[|es| - 1])
  }

  lemma {:induction false} RunConcat(s: Store, a: seq<Move>, b: seq<Move>)
    ensures Run(s, a + b) == Run(Run(s, a), b)
  {
    if b == [] {
      assert a + b == a;
    } else {
      RunConcat(s, a, b[..|b| - 1]);
      assert (a + b)[..|a + b| - 1] == a + b[..|b| - 1];
    }
  }

  // ---- Nothing is lost

  // What the source's own users last wrote at each key, `was` to begin with.
  function Truth(was: Rows, es: seq<Move>): Rows {
    if es == [] then was
    else
      var before := Truth(was, es[..|es| - 1]);
      match es[|es| - 1]
      case Wrote(key, row) => before[key := row]
      case Erased(key) => before - {key}
      case _ => before
  }

  // Every row of the truth is on the source or in the archive, as it is.
  ghost predicate Kept(s: Store, truth: Rows) {
    forall k :: k in truth ==> Lookup(s.source, k) == Some(truth[k]) || Lookup(s.archive, k) == Some(truth[k])
  }

  lemma {:induction false} StepKeeps(s: Store, truth: Rows, e: Move)
    requires Kept(s, truth) && !e.PutBack? && !e.Wrote? && !e.Erased?
    ensures Kept(Step(s, e), truth)
    ensures forall k :: k in s.archive ==> Lookup(Step(s, e).archive, k) == Some(s.archive[k])
  {
  }

  lemma {:induction false} WriteKeeps(s: Store, truth: Rows, e: Move)
    requires Kept(s, truth)
    ensures e.Wrote? ==> Kept(Step(s, e), truth[e.key := e.row])
    ensures e.Erased? ==> Kept(Step(s, e), truth - {e.key})
  {
  }

  // Stopped anywhere while copying and removing, and written to by others
  // between batches: each row last written is on the source or in the
  // archive, and what the archive holds is never overwritten.
  lemma {:induction false} NothingLost(s: Store, es: seq<Move>)
    requires forall e :: e in es ==> !e.PutBack?
    ensures Kept(Run(s, es), Truth(s.source, es))
    ensures forall k :: k in s.archive ==> Lookup(Run(s, es).archive, k) == Some(s.archive[k])
  {
    if es != [] {
      var less, e := es[..|es| - 1], es[|es| - 1];
      NothingLost(s, less);
      if e.Wrote? || e.Erased? {
        WriteKeeps(Run(s, less), Truth(s.source, less), e);
      } else {
        StepKeeps(Run(s, less), Truth(s.source, less), e);
      }
    }
  }

  // A batch as it was read, taken off the source as it is by then: nothing is
  // lost exactly where no row among those that leave was written in between.
  lemma {:induction false} LateTakeKeepsExactly(read: Store, part: set<Key>, now: Store, landed: set<Key>)
    requires now.archive == read.archive
    ensures var gone := Alike(read, part) * landed;
            Kept(now.(source := now.source - gone), now.source)
            <==> forall k :: k in gone && k in now.source ==> now.source[k] == read.source[k]
  {
    var gone := Alike(read, part) * landed;
    var after := now.(source := now.source - gone);
    if Kept(after, now.source) {
      forall k | k in gone && k in now.source ensures now.source[k] == read.source[k] {
        assert Lookup(after.source, k) == None;
      }
    }
  }

  // Putting a line back loses a row exactly where one was written anew under
  // one of its keys: the archive's row goes over it.
  lemma {:induction false} PutBackKeepsExactly(s: Store, line: Line, stop: Option<set<Key>>)
    ensures Kept(Step(s, PutBack(line, stop)), s.source)
            <==> (line.keys <= s.archive.Keys ==> Otherwise(s, Landed(line.keys, stop)) == {})
  {
    var after := Step(s, PutBack(line, stop));
    var over := Otherwise(s, Landed(line.keys, stop));
    if line.keys <= s.archive.Keys {
      forall k | k in over ensures !Kept(after, s.source) {
        assert Lookup(after.source, k) == Some(s.archive[k]);
      }
      forall k | k in s.source && k !in over ensures Lookup(after.source, k) == Some(s.source[k]) {
      }
      if over == {} {
        assert forall k :: k in s.source ==> k !in over;
      } else {
        var k := Pick(over);
        assert !Kept(after, s.source);
      }
    }
  }

  // ---- What a step does where it is not stopped

  // A batch copied: what the source has of it and the archive had not is there
  // as the source has it, and the archive is otherwise as it was.
  lemma {:induction false} CopyLeaves(s: Store, part: set<Key>, k: Key)
    ensures var now := Step(s, Copy(part, None));
            && now.source == s.source && now.ledger == s.ledger
            && Lookup(now.archive, k) == if k in s.archive then Some(s.archive[k])
                                         else if k in part then Lookup(s.source, k)
                                         else None
  {
  }

  // A row of which the archive holds the like.
  ghost predicate Doubled(s: Store, k: Key) { k in s.source && Lookup(s.archive, k) == Some(s.source[k]) }

  // A batch taken: just its rows that the archive holds alike are off the
  // source.
  lemma {:induction false} TakeLeaves(s: Store, table: Name, part: set<Key>, k: Key)
    ensures var now := Step(s, Take(table, part, None));
            && now.archive == s.archive
            && Lookup(now.source, k) == if k in part && Doubled(s, k) then None else Lookup(s.source, k)
  {
    if k in part && Doubled(s, k) {
      assert k in Alike(s, part);
    }
  }

  // Wherever it stops, no row is off the source before the ledger says that it
  // is to go.
  lemma {:induction false} LeavingIsSaid(s: Store, es: seq<Move>, k: Key)
    requires forall e :: e in es ==> e.Copy? || e.Take?
    requires k in s.source && k !in Run(s, es).source
    ensures exists l :: l in Run(s, es).ledger && l.said == Removing && k in l.keys
  {
    var less, e := es[..|es| - 1], es[|es| - 1];
    var was, now := Run(s, less), Run(s, es);
    assert e in es;
    if k !in was.source {
      LeavingIsSaid(s, less, k);
      var l :| l in was.ledger && l.said == Removing && k in l.keys;
      assert l in now.ledger;
    } else {
      assert Line(Removing, e.table, Alike(was, e.part)) in now.ledger;
    }
  }
}
