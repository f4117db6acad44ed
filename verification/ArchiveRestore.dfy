// What the ledger still owes the source, and putting it back
// (`migkit/archive.py`).
module ArchiveRestore {
  import opened ArchiveSteps
  import opened Extremes
  import opened LastEvent
  import opened Names

  // ---- Reading the ledger

  // The lines of a table that say its rows were removed; a line that says
  // rows of it were put back drops them all.
  function LinesOf(ledger: seq<Line>, t: Name): (r: seq<Line>)
    ensures forall l :: l in r ==> l.said == Removed && l.table == t
  {
    if ledger == [] then []
    else
      var before, l := LinesOf(ledger[..|ledger| - 1], t), ledger[|ledger| - 1];
      if l.table != t then before
      else match l.said case Removing => before case Removed => before + [l] case Restored => []
  }

  // The keys still to put back.
  function Owed(ledger: seq<Line>): set<Key> {
    if ledger == [] then {}
    else
      var before, l := Owed(ledger[..|ledger| - 1]), ledger[|ledger| - 1];
      match l.said
      case Removing => before
      case Removed => before + l.keys
      case Restored => set k | k in before && k.table != l.table
  }

  function KeysOf(lines: seq<Line>): set<Key> {
    if lines == [] then {} else KeysOf(lines[..|lines| - 1]) + lines[|lines| - 1].keys
  }

  // Each line's keys are of its table.
  ghost predicate WellFormed(ledger: seq<Line>) {
    forall l, k :: l in ledger && k in l.keys ==> k.table == l.table
  }

  lemma {:induction false} OwedIsLines(ledger: seq<Line>, t: Name)
    requires WellFormed(ledger)
    ensures KeysOf(LinesOf(ledger, t)) == set k | k in Owed(ledger) && k.table == t
  {
    if ledger != [] {
      var less, l := ledger[..|ledger| - 1], ledger[|ledger| - 1];
      OwedIsLines(less, t);
      assert l in ledger;
      if l.table == t && l.said == Removed {
        assert LinesOf(ledger, t)[..|LinesOf(less, t)|] == LinesOf(less, t);
      }
    }
  }

  // ---- Putting lines back

  function Puts(lines: seq<Line>): (es: seq<Move>)
    ensures |es| == |lines|
  {
    if lines == [] then [] else Puts(lines[..|lines| - 1]) + [PutBack(lines[|lines| - 1], None)]
  }

  function TablesOf(lines: seq<Line>): set<Name> { set l | l in lines :: l.table }

  lemma {:induction false} PutsOne(s: Store, lines: seq<Line>)
    requires lines != []
    ensures Run(s, Puts(lines)) == Step(Run(s, Puts(lines[..|lines| - 1])), PutBack(lines[|lines| - 1], None))
  {
    var less := lines[..|lines| - 1];
    assert Puts(lines)[..|less|] == Puts(less);
  }

  lemma {:induction false} StepPuts(s: Store, l: Line)
    requires l.keys <= s.archive.Keys
    ensures Step(s, PutBack(l, None)) == Store(s.source + Only(s.archive, l.keys), s.archive, s.ledger + [l.(said := Restored)])
  {
  }

  lemma {:induction false} OnlyBoth(rows: Rows, archive: Rows, a: set<Key>, b: set<Key>)
    ensures rows + Only(archive, a) + Only(archive, b) == rows + Only(archive, a + b)
  {
  }

  lemma {:induction false} PutsRows(s: Store, lines: seq<Line>)
    requires KeysOf(lines) <= s.archive.Keys
    ensures Run(s, Puts(lines)).archive == s.archive
    ensures Run(s, Puts(lines)).source == s.source + Only(s.archive, KeysOf(lines))
  {
    if lines == [] {
      assert s.source + Only(s.archive, {}) == s.source;
    } else {
      var less, l := lines[..|lines| - 1], lines[|lines| - 1];
      PutsRows(s, less);
      PutsOne(s, lines);
      StepPuts(Run(s, Puts(less)), l);
      OnlyBoth(s.source, s.archive, KeysOf(less), l.keys);
    }
  }

  function NotOf(keys: set<Key>, tables: set<Name>): set<Key> { set k | k in keys && k.table !in tables }

  lemma {:induction false} PutsSaid(s: Store, lines: seq<Line>)
    requires KeysOf(lines) <= s.archive.Keys
    ensures Owed(Run(s, Puts(lines)).ledger) == NotOf(Owed(s.ledger), TablesOf(lines))
  {
    if lines != [] {
      var less, l := lines[..|lines| - 1], lines[|lines| - 1];
      PutsRows(s, less);
      PutsSaid(s, less);
      PutsOne(s, lines);
      StepPuts(Run(s, Puts(less)), l);
      OwedOne(Run(s, Puts(less)).ledger, l.(said := Restored));
      OneTableMore(Owed(s.ledger), less, l);
      assert lines == less + [l];
    }
  }

  lemma {:induction false} OneTableMore(keys: set<Key>, less: seq<Line>, l: Line)
    ensures NotOf(keys, TablesOf(less + [l])) == set k | k in NotOf(keys, TablesOf(less)) && k.table != l.table
  {
    assert TablesOf(less + [l]) == TablesOf(less) + {l.table};
  }

  lemma {:induction false} OwedOne(ledger: seq<Line>, l: Line)
    ensures Owed(ledger + [l]) == match l.said
                                  case Removing => Owed(ledger)
                                  case Removed => Owed(ledger) + l.keys
                                  case Restored => set k | k in Owed(ledger) && k.table != l.table
  {
    var more := ledger + [l];
    assert more[..|more| - 1] == ledger;
  }

  // The source once all that is owed is put back.
  function PutAll(s: Store): Rows { s.source + Only(s.archive, Owed(s.ledger)) }

  lemma {:induction false} OverlaysExactly(rows: Rows, archive: Rows, put: set<Key>, left: set<Key>, owed: set<Key>)
    requires put <= owed && left <= owed <= archive.Keys
    ensures rows + Only(archive, put) + Only(archive, left) == rows + Only(archive, owed)
            <==> forall k :: k in owed - put - left ==> Lookup(rows, k) == Some(archive[k])
  {
    OnlyBoth(rows, archive, put, left);
    var part, all := rows + Only(archive, put + left), rows + Only(archive, owed);
    forall k | k in owed - put - left ensures Lookup(part, k) == Lookup(rows, k) && Lookup(all, k) == Some(archive[k]) {
    }
    if forall k :: k in owed - put - left ==> Lookup(rows, k) == Some(archive[k]) {
      forall k ensures Lookup(part, k) == Lookup(all, k) {
      }
      MapsAgree(part, all);
    }
  }

  // The rows a restore stopped after `lines` leaves out for good: the first
  // line put back drops the rest of its table.
  function Dropped(s: Store, lines: seq<Line>): set<Key> {
    set k | k in Owed(s.ledger) && k.table in TablesOf(lines) && k !in KeysOf(lines)
  }

  // A restore stopped after some lines and run again gives back what one run
  // would exactly where no row it drops is off the source or differs on it -
  // so wherever it stops between tables.
  lemma {:induction false} ResumesExactly(s: Store, lines: seq<Line>)
    requires KeysOf(lines) <= Owed(s.ledger) <= s.archive.Keys
    ensures PutAll(Run(s, Puts(lines))) == PutAll(s)
            <==> forall k :: k in Dropped(s, lines) ==> Lookup(s.source, k) == Some(s.archive[k])
  {
    PutsRows(s, lines);
    PutsSaid(s, lines);
    var owed, put, left := Owed(s.ledger), KeysOf(lines), NotOf(Owed(s.ledger), TablesOf(lines));
    OverlaysExactly(s.source, s.archive, put, left, owed);
    assert owed - put - left == Dropped(s, lines);
  }

  // ---- Taken off, then put back

  // The rows that left in batches stopped before the ledger said so.
  function Unsaid(s: Store, es: seq<Move>): set<Key> {
    if es == [] then {}
    else
      var e := es[|es| - 1];
      Unsaid(s, es[..|es| - 1]) +
      if e.Take? && e.stop.Some? then Landed(Alike(Run(s, es[..|es| - 1]), e.part), e.stop) else {}
  }

  lemma {:induction false} TakesRun(s: Store, es: seq<Move>)
    requires Owed(s.ledger) == {} && forall e :: e in es ==> e.Take?
    ensures var now := Run(s, es);
            && now.archive == s.archive
            && now.source == s.source - Owed(now.ledger) - Unsaid(s, es)
            && Owed(now.ledger) !! Unsaid(s, es) && Owed(now.ledger) + Unsaid(s, es) <= s.source.Keys
            && forall k :: k in Owed(now.ledger) ==> Lookup(s.archive, k) == Some(s.source[k])
  {
    if es != [] {
      var less, e := es[..|es| - 1], es[|es| - 1];
      TakesRun(s, less);
      assert e in es;
      OwedAfterTake(Run(s, less), e);
    }
  }

  lemma {:induction false} OwedAfterTake(s: Store, e: Move)
    requires e.Take?
    ensures Owed(Step(s, e).ledger) == Owed(s.ledger) + if e.stop.None? then Alike(s, e.part) else {}
  {
    var go := Alike(s, e.part);
    var said := s.ledger + [Line(Removing, e.table, go)];
    OwedOne(s.ledger, Line(Removing, e.table, go));
    OwedOne(said, Line(Removed, e.table, go));
    assert said + [] == said;
  }

  // Whatever was taken, a whole restore gives the source back exactly where
  // no stopped batch had a row leave.
  lemma {:induction false} GivesBackExactly(s: Store, es: seq<Move>)
    requires Owed(s.ledger) == {} && forall e :: e in es ==> e.Take?
    ensures PutAll(Run(s, es)) == s.source - Unsaid(s, es)
    ensures PutAll(Run(s, es)) == s.source <==> Unsaid(s, es) == {}
  {
    TakesRun(s, es);
    var now := Run(s, es);
    forall k ensures Lookup(PutAll(now), k) == Lookup(s.source - Unsaid(s, es), k) {
    }
    MapsAgree(PutAll(now), s.source - Unsaid(s, es));
    if Unsaid(s, es) != {} {
      var k := Pick(Unsaid(s, es));
      assert k in s.source && k !in PutAll(now);
    } else {
      assert s.source - {} == s.source;
    }
  }
}
