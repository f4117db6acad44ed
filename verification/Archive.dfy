// The archive's copy, removal and restore, batch after batch
// (`migkit/archive.py`).
module Archive {
  import opened ArchiveRestore
  import opened ArchiveSteps
  import opened LastEvent
  import opened Names
  import opened RemovalOrder

  // The batches the rule's rows are read in.
  type Batches = seq<set<Key>>

  function All(parts: Batches): set<Key> {
    if parts == [] then {} else All(parts[..|parts| - 1]) + parts[|parts| - 1]
  }

  function Copies(parts: Batches): (ms: seq<Move>)
    ensures |ms| == |parts|
  {
    if parts == [] then [] else Copies(parts[..|parts| - 1]) + [Copy(parts[|parts| - 1], None)]
  }

  function Takes(t: Name, parts: Batches): (ms: seq<Move>)
    ensures |ms| == |parts| && forall m :: m in ms ==> m.Take? && m.stop == None && m.table == t && m.part in parts
  {
    if parts == [] then [] else Takes(t, parts[..|parts| - 1]) + [Take(t, parts[|parts| - 1], None)]
  }

  function TakesOf(order: seq<Name>, parts: map<Name, Batches>): (ms: seq<Move>)
    requires forall t :: t in order ==> t in parts
    ensures forall m :: m in ms ==> m.Take? && m.stop == None && m.table in parts && m.part in parts[m.table]
  {
    if order == [] then []
    else TakesOf(order[..|order| - 1], parts) + Takes(order[|order| - 1], parts[order[|order| - 1]])
  }

  ghost predicate OfTheirTables(parts: map<Name, Batches>) {
    forall t, p, k :: t in parts && p in parts[t] && k in p ==> k.table == t
  }

  lemma {:induction false} AllOne(parts: Batches, i: nat)
    requires i < |parts|
    ensures All(parts[..i + 1]) == All(parts[..i]) + parts[i]
  {
    assert parts[..i + 1][..i] == parts[..i];
  }

  lemma {:induction false} CopiesOne(s: Store, parts: Batches, i: nat)
    requires i < |parts|
    ensures Run(s, Copies(parts[..i + 1])) == Step(Run(s, Copies(parts[..i])), Copy(parts[i], None))
    ensures All(parts[..i + 1]) == All(parts[..i]) + parts[i]
  {
    var more := parts[..i + 1];
    assert more[..|more| - 1] == parts[..i];
    assert Copies(more)[..i] == Copies(parts[..i]);
  }

  // What a whole copy leaves: the rows picked that were not there, as the
  // source has them.
  lemma {:induction false} CopiesRun(s: Store, parts: Batches)
    ensures Run(s, Copies(parts)) == s.(archive := s.archive + Only(s.source, New(s, All(parts))))
  {
    if parts == [] {
      assert s.archive + Only(s.source, New(s, {})) == s.archive;
    } else {
      var less, n := parts[..|parts| - 1], |parts| - 1;
      CopiesRun(s, less);
      assert parts[..n] == less && parts[..n + 1] == parts;
      CopiesOne(s, parts, n);
      CopyAfter(s, All(less), parts[n]);
    }
  }

  lemma {:induction false} CopyAfter(s: Store, was: set<Key>, part: set<Key>)
    ensures Step(s.(archive := s.archive + Only(s.source, New(s, was))), Copy(part, None))
            == s.(archive := s.archive + Only(s.source, New(s, was + part)))
  {
    var now := s.(archive := s.archive + Only(s.source, New(s, was)));
    assert now.archive + Only(s.source, New(now, part)) == s.archive + Only(s.source, New(s, was + part));
  }

  ghost predicate InBatch(parts: Batches, k: Key) { exists i :: 0 <= i < |parts| && k in parts[i] }

  lemma {:induction false} InBatchMore(parts: Batches, k: Key)
    requires parts != []
    ensures InBatch(parts, k) <==> InBatch(parts[..|parts| - 1], k) || k in parts[|parts| - 1]
  {
    var less := parts[..|parts| - 1];
    if i :| 0 <= i < |less| && k in less[i] {
      assert k in parts[i];
    }
    if i :| 0 <= i < |parts| && k in parts[i] {
      if i < |less| { assert k in less[i]; }
    }
  }

  lemma {:induction false} AllHas(parts: Batches, k: Key)
    ensures k in All(parts) <==> InBatch(parts, k)
  {
    if parts != [] {
      AllHas(parts[..|parts| - 1], k);
      InBatchMore(parts, k);
    }
  }

  // After a whole copy the archive has every row picked that is on the source:
  // as it had it, or else as the source has it - and nothing more.
  lemma {:induction false} CopiesLeave(s: Store, parts: Batches, k: Key)
    ensures var now := Run(s, Copies(parts));
            && now.source == s.source && now.ledger == s.ledger
            && Lookup(now.archive, k) == if k in s.archive then Some(s.archive[k])
                                         else if InBatch(parts, k) then Lookup(s.source, k)
                                         else None
  {
    if parts != [] {
      var less, n := parts[..|parts| - 1], |parts| - 1;
      CopiesLeave(s, less, k);
      InBatchMore(parts, k);
      assert parts[..n] == less && parts[..n + 1] == parts;
      CopiesOne(s, parts, n);
      CopyLeaves(Run(s, Copies(less)), parts[n], k);
    }
  }

  // After a whole removal of a table just the rows picked that the archive
  // holds alike are off the source.
  lemma {:induction false} TakesLeave(s: Store, t: Name, parts: Batches, k: Key)
    ensures var now := Run(s, Takes(t, parts));
            && now.archive == s.archive
            && Lookup(now.source, k) == if InBatch(parts, k) && Doubled(s, k) then None else Lookup(s.source, k)
  {
    if parts != [] {
      var less, n := parts[..|parts| - 1], |parts| - 1;
      TakesLeave(s, t, less, k);
      InBatchMore(parts, k);
      assert parts[..n] == less && parts[..n + 1] == parts;
      TakesOne(s, t, parts, n);
      TakeLeaves(Run(s, Takes(t, less)), t, parts[n], k);
    }
  }

  ghost predicate Picked(order: seq<Name>, parts: map<Name, Batches>, k: Key) {
    exists t :: t in order && t in parts && InBatch(parts[t], k)
  }

  lemma {:induction false} TakesOfLeave(s: Store, order: seq<Name>, parts: map<Name, Batches>, k: Key)
    requires forall t :: t in order ==> t in parts
    ensures var now := Run(s, TakesOf(order, parts));
            && now.archive == s.archive
            && Lookup(now.source, k) == if Picked(order, parts, k) && Doubled(s, k) then None else Lookup(s.source, k)
  {
    if order != [] {
      var less, t, n := order[..|order| - 1], order[|order| - 1], |order| - 1;
      assert order == less + [t] && order[..n] == less && order[..n + 1] == order;
      TakesOfLeave(s, less, parts, k);
      TakesOfOne(s, order, parts, n);
      TakesLeave(Run(s, TakesOf(less, parts)), t, parts[t], k);
      assert Picked(order, parts, k) <==> Picked(less, parts, k) || InBatch(parts[t], k);
    }
  }

  // Every picked row of which the archive held nothing else, copied and then
  // removed, is in the archive as the source had it and off the source.
  lemma {:induction false} MovedOver(s: Store, copied: Batches, order: seq<Name>, parts: map<Name, Batches>, k: Key)
    requires forall t :: t in order ==> t in parts
    requires k in s.source && InBatch(copied, k) && Picked(order, parts, k) && (k in s.archive ==> s.archive[k] == s.source[k])
    ensures var now := Run(Run(s, Copies(copied)), TakesOf(order, parts));
            Lookup(now.archive, k) == Some(s.source[k]) && k !in now.source
  {
    CopiesLeave(s, copied, k);
    TakesOfLeave(Run(s, Copies(copied)), order, parts, k);
  }

  // What earlier batches wrote is as the source has it.
  lemma {:induction false} HeldMore(s: Store, parts: Batches, i: nat)
    requires i < |parts|
    ensures Otherwise(s, All(parts[..i + 1])) == Otherwise(s, All(parts[..i])) + Otherwise(Run(s, Copies(parts[..i])), parts[i])
  {
    CopiesRun(s, parts[..i]);
    CopiesOne(s, parts, i);
  }

  lemma {:induction false} TakesOne(s: Store, t: Name, parts: Batches, i: nat)
    requires i < |parts|
    ensures Run(s, Takes(t, parts[..i + 1])) == Step(Run(s, Takes(t, parts[..i])), Take(t, parts[i], None))
  {
    var more := parts[..i + 1];
    assert more[..|more| - 1] == parts[..i];
    assert Takes(t, more)[..i] == Takes(t, parts[..i]);
  }

  lemma {:induction false} TakesOfOne(s: Store, order: seq<Name>, parts: map<Name, Batches>, i: nat)
    requires i < |order| && forall t :: t in order ==> t in parts
    ensures Run(s, TakesOf(order[..i + 1], parts)) == Run(Run(s, TakesOf(order[..i], parts)), Takes(order[i], parts[order[i]]))
  {
    assert order[..i + 1][..i] == order[..i];
    RunConcat(s, TakesOf(order[..i], parts), Takes(order[i], parts[order[i]]));
  }

  // ---- Round trip

  lemma {:induction false} NothingUnsaid(s: Store, ms: seq<Move>)
    requires forall m :: m in ms ==> m.Take? && m.stop == None
    ensures Unsaid(s, ms) == {}
  {
    if ms != [] {
      NothingUnsaid(s, ms[..|ms| - 1]);
      assert ms[|ms| - 1] in ms;
    }
  }

  lemma {:induction false} TakesWellFormed(s: Store, ms: seq<Move>)
    requires WellFormed(s.ledger) && forall m :: m in ms ==> m.Take? && forall k :: k in m.part ==> k.table == m.table
    ensures WellFormed(Run(s, ms).ledger)
  {
    if ms != [] {
      TakesWellFormed(s, ms[..|ms| - 1]);
      assert ms[|ms| - 1] in ms;
    }
  }

  // A removal that ran through, its order and batches whatever they were,
  // and all it removed put back: the source as it was. The archive holds all
  // the ledger owes, so the restore does run through.
  lemma {:induction false} RoundTrip(s: Store, order: seq<Name>, parts: map<Name, Batches>)
    requires Owed(s.ledger) == {} && WellFormed(s.ledger) && OfTheirTables(parts) && forall t :: t in order ==> t in parts
    ensures var now := Run(s, TakesOf(order, parts));
            PutAll(now) == s.source && WellFormed(now.ledger) && Owed(now.ledger) <= now.archive.Keys
  {
    var ms := TakesOf(order, parts);
    NothingUnsaid(s, ms);
    GivesBackExactly(s, ms);
    TakesWellFormed(s, ms);
    TakesRun(s, ms);
    forall k | k in Owed(Run(s, ms).ledger) ensures k in s.archive {
      assert Lookup(s.archive, k) == Some(s.source[k]);
    }
  }

  // ---- The lines of the tables to put back

  function LinesIn(ledger: seq<Line>, order: seq<Name>): seq<Line> {
    if order == [] then [] else LinesIn(ledger, order[..|order| - 1]) + LinesOf(ledger, order[|order| - 1])
  }

  lemma {:induction false} KeysOfBoth(a: seq<Line>, b: seq<Line>)
    ensures KeysOf(a + b) == KeysOf(a) + KeysOf(b)
  {
    if b == [] {
      assert a + b == a;
    } else {
      KeysOfBoth(a, b[..|b| - 1]);
      assert (a + b)[..|a + b| - 1] == a + b[..|b| - 1];
    }
  }

  lemma {:induction false} LinesInKeys(ledger: seq<Line>, order: seq<Name>)
    requires WellFormed(ledger)
    ensures KeysOf(LinesIn(ledger, order)) == set k | k in Owed(ledger) && k.table in order
    ensures forall l :: l in LinesIn(ledger, order) ==> l.table in order
  {
    if order != [] {
      var less, t := order[..|order| - 1], order[|order| - 1];
      LinesInKeys(ledger, less);
      OwedIsLines(ledger, t);
      KeysOfBoth(LinesIn(ledger, less), LinesOf(ledger, t));
      assert order == less + [t];
    }
  }

  // All owed is put back, and nothing is owed, once every table with a line
  // is in the order.
  lemma {:induction false} AllPutBack(s: Store, order: seq<Name>)
    requires WellFormed(s.ledger) && Owed(s.ledger) <= s.archive.Keys
    requires forall t :: LinesOf(s.ledger, t) != [] ==> t in order
    ensures Run(s, Puts(LinesIn(s.ledger, order))).source == PutAll(s)
    ensures Owed(Run(s, Puts(LinesIn(s.ledger, order))).ledger) == {}
  {
    var lines := LinesIn(s.ledger, order);
    LinesInKeys(s.ledger, order);
    forall k | k in Owed(s.ledger) ensures k in KeysOf(lines) && k.table in TablesOf(lines) {
      OwedIsLines(s.ledger, k.table);
      assert k in KeysOf(LinesOf(s.ledger, k.table));
      InOrder(s.ledger, order, k.table);
    }
    PutsRows(s, lines);
    PutsSaid(s, lines);
    assert KeysOf(lines) == Owed(s.ledger);
  }

  lemma {:induction false} InOrder(ledger: seq<Line>, order: seq<Name>, t: Name)
    requires t in order && LinesOf(ledger, t) != []
    ensures t in TablesOf(LinesIn(ledger, order))
  {
    var less, last := order[..|order| - 1], order[|order| - 1];
    if last == t {
      assert LinesOf(ledger, t)[0] in LinesIn(ledger, order);
    } else {
      InOrder(ledger, less, t);
    }
  }

  // ---- The two databases and the ledger, changed in place

  // The tables the ledger has rows of to put back, each with its lines.
  ghost predicate Standing(ledger: seq<Line>, removed: map<Name, seq<Line>>) {
    forall t :: if t in removed then removed[t] != [] && removed[t] == LinesOf(ledger, t) else LinesOf(ledger, t) == []
  }

  method ReadLedger(ledger: seq<Line>) returns (removed: map<Name, seq<Line>>)
    ensures Standing(ledger, removed)
  {
    removed := map[];
    for i := 0 to |ledger|
      invariant Standing(ledger[..i], removed)
    {
      var l := ledger[i];
      assert ledger[..i + 1][..i] == ledger[..i];
      if l.said == Removed {
        removed := removed[l.table := (if l.table in removed then removed[l.table] else []) + [l]];
      } else if l.said == Restored {
        removed := removed - {l.table};
      }
    }
    assert ledger[..|ledger|] == ledger;
  }

  class Archiver {
    var source: Rows
    var archive: Rows
    var ledger: seq<Line>

    constructor (source: Rows, archive: Rows)
      ensures Now() == Store(source, archive, [])
    {
      this.source, this.archive, ledger := source, archive, [];
    }

    ghost function Now(): Store
      reads this
    {
      Store(source, archive, ledger)
    }

    method CopyBatch(part: set<Key>) returns (held: set<Key>)
      modifies this`archive
      ensures Now() == Step(old(Now()), Copy(part, None))
      ensures held == Otherwise(old(Now()), part)
    {
      var mine := Only(source, part);
      var theirs := Only(archive, part);
      var added := map k | k in mine && k !in theirs :: mine[k];
      held := set k | k in mine && k in theirs && theirs[k] != mine[k];
      assert added == Only(source, New(Now(), part));
      archive := archive + added;
    }

    // The rows picked, new ones written to the archive; those it holds
    // otherwise, for which the move is refused, left as they are.
    method CopyRows(parts: Batches) returns (held: set<Key>)
      modifies this`archive
      ensures Now() == Run(old(Now()), Copies(parts))
      ensures archive == old(archive) + Only(source, New(old(Now()), All(parts)))
      ensures held == Otherwise(old(Now()), All(parts))
      ensures forall k :: k in held <==> InBatch(parts, k) && k in source && k in old(archive) && old(archive)[k] != source[k]
      ensures forall k :: InBatch(parts, k) && k in source && k !in held ==> Lookup(archive, k) == Some(source[k])
    {
      ghost var was := Now();
      held := {};
      assert parts[..0] == [];
      for i := 0 to |parts|
        invariant Now() == Run(was, Copies(parts[..i])) && held == Otherwise(was, All(parts[..i]))
      {
        CopiesOne(was, parts, i);
        HeldMore(was, parts, i);
        var more := CopyBatch(parts[i]);
        held := held + more;
      }
      assert parts[..|parts|] == parts;
      CopiesRun(was, parts);
      forall k ensures k in All(parts) <==> InBatch(parts, k) {
        AllHas(parts, k);
      }
      forall k | InBatch(parts, k) && k in source && k !in held ensures Lookup(archive, k) == Some(source[k]) {
        CopiesLeave(was, parts, k);
      }
    }

    // One batch off the source: only what the archive holds as the source has
    // it, its keys in the ledger before a row goes.
    method TakeBatch(t: Name, part: set<Key>) returns (stayed: set<Key>, gone: nat)
      modifies this`source, this`ledger
      ensures Now() == Step(old(Now()), Take(t, part, None))
      ensures stayed == (set k | k in part && k in old(source)) - Alike(old(Now()), part)
      ensures gone == |Alike(old(Now()), part)| && |source| + gone == |old(source)|
    {
      var mine := Only(source, part);
      var theirs := Only(archive, part);
      var go := set k | k in mine && k in theirs && theirs[k] == mine[k];
      assert go == Alike(Now(), part);
      stayed := mine.Keys - go;
      gone := |go|;
      if go == {} {
        return;
      }
      ledger := ledger + [Line(Removing, t, go)];
      ghost var before := source;
      source := source - go;
      assert before.Keys == source.Keys + go;
      ledger := ledger + [Line(Removed, t, go)];
    }

    method TakeTable(t: Name, parts: Batches) returns (stayed: set<Key>, gone: nat)
      modifies this`source, this`ledger
      ensures Now() == Run(old(Now()), Takes(t, parts))
      ensures |source| + gone == |old(source)|
      ensures stayed <= All(parts)
    {
      ghost var was := Now();
      stayed, gone := {}, 0;
      assert parts[..0] == [];
      for i := 0 to |parts|
        invariant archive == was.archive && Now() == Run(was, Takes(t, parts[..i]))
        invariant |source| + gone == |was.source| && stayed <= All(parts[..i])
      {
        TakesOne(was, t, parts, i);
        AllOne(parts, i);
        var left, n := TakeBatch(t, parts[i]);
        stayed, gone := stayed + left, gone + n;
      }
      assert parts[..|parts|] == parts;
    }

    // Children before the tables they name, a batch at a time; all that left
    // is counted.
    method RemoveRows(names: seq<Name>, edges: seq<Edge>, parts: map<Name, Batches>)
      returns (order: seq<Name>, total: nat)
      requires forall t :: t in names ==> t in parts
      modifies this`source, this`ledger
      ensures multiset(order) == multiset(names) && Leaves(Before(names, edges), order, {})
      ensures forall t :: t in order ==> t in parts
      ensures Now() == Run(old(Now()), TakesOf(order, parts))
      ensures |source| + total == |old(source)|
      ensures forall k :: k in source <==> k in old(source) && !(Picked(order, parts, k) && Lookup(archive, k) == Some(old(source)[k]))
    {
      order := Order(names, edges);
      forall t | t in order ensures t in parts { assert t in multiset(order); }
      ghost var was := Now();
      total := 0;
      for i := 0 to |order|
        invariant archive == was.archive && Now() == Run(was, TakesOf(order[..i], parts))
        invariant |source| + total == |was.source|
      {
        TakesOfOne(was, order, parts, i);
        var _, n := TakeTable(order[i], parts[order[i]]);
        total := total + n;
      }
      assert order[..|order|] == order;
      forall k ensures k in source <==> k in was.source && !(Picked(order, parts, k) && Lookup(archive, k) == Some(was.source[k])) {
        TakesOfLeave(was, order, parts, k);
      }
    }

    // One table's lines put back; stopped at the first the archive holds not
    // every row of.
    method PutTable(lines: seq<Line>) returns (ok: bool, ghost done: seq<Line>)
      modifies this`source, this`ledger
      ensures done <= lines && (ok ==> done == lines) && Now() == Run(old(Now()), Puts(done))
      ensures ok <==> KeysOf(lines) <= archive.Keys
      ensures archive == old(archive)
    {
      ghost var was := Now();
      assert lines[..0] == [];
      for i := 0 to |lines|
        invariant archive == was.archive && Now() == Run(was, Puts(lines[..i])) && KeysOf(lines[..i]) <= archive.Keys
      {
        var l := lines[i];
        assert lines[..i + 1][..i] == lines[..i];
        if !(l.keys <= archive.Keys) {
          KeysIn(lines, i);
          return false, lines[..i];
        }
        PutsOne(was, lines[..i + 1]);
        source := source + Only(archive, l.keys);
        ledger := ledger + [l.(said := Restored)];
      }
      assert lines[..|lines|] == lines;
      return true, lines;
    }

    // The tables last in the order first; stopped where the archive does not
    // hold a row any more.
    method PutTables(order: seq<Name>, removed: map<Name, seq<Line>>)
      returns (ok: bool, tables: seq<Name>, ghost done: seq<Line>)
      requires WellFormed(ledger) && Standing(ledger, removed) && forall t :: t in order ==> t in removed
      modifies this`source, this`ledger
      ensures Now() == Run(old(Now()), Puts(done))
      ensures ok ==> tables == Backwards(order) && done == LinesIn(old(ledger), tables) && KeysOf(done) <= archive.Keys
      ensures !ok ==> !(Owed(old(ledger)) <= archive.Keys)
    {
      ghost var was := Now();
      var i := |order|;
      tables, done := [], [];
      assert order[i..] == [];
      while i > 0
        invariant 0 <= i <= |order| && archive == was.archive && tables == Backwards(order[i..])
        invariant done == LinesIn(was.ledger, tables) && KeysOf(done) <= archive.Keys
        invariant Now() == Run(was, Puts(done))
      {
        i := i - 1;
        var t := order[i];
        assert order[i..][1..] == order[i + 1..];
        ghost var more;
        ok, more := PutTable(removed[t]);
        PutsMore(was, done, more);
        if !ok {
          OwedIsLines(was.ledger, t);
          done := done + more;
          return;
        }
        LinesInOne(was.ledger, tables, t);
        tables, done := tables + [t], done + more;
      }
      assert order[0..] == order;
      ok := true;
    }

    // Every row the ledger owes put back, parents before children, the tables
    // as they were gone through.
    method RestoreRows(edges: seq<Edge>) returns (ok: bool, tables: seq<Name>, ghost done: seq<Line>)
      requires WellFormed(ledger)
      modifies this`source, this`ledger
      ensures ok <==> Owed(old(ledger)) <= archive.Keys
      ensures Now() == Run(old(Now()), Puts(done))
      ensures ok ==> done == LinesIn(old(ledger), tables) && Leaves(Before(tables, edges), Backwards(tables), {})
      ensures ok ==> source == PutAll(old(Now())) && archive == old(archive) && Owed(ledger) == {}
    {
      ghost var was := Now();
      var removed := ReadLedger(ledger);
      var names := Listed(removed.Keys);
      var order := Order(names, edges);
      forall t ensures t in order <==> t in removed {
        assert t in order <==> t in multiset(order);
        assert t in names <==> t in multiset(names);
      }
      ok, tables, done := PutTables(order, removed);
      if ok {
        AllInTurn(was, order, tables);
        SameBefore(names, tables, edges);
      }
    }
  }

  function Backwards(s: seq<Name>): (r: seq<Name>)
    ensures forall t :: t in r <==> t in s
  {
    if s == [] then [] else Backwards(s[1..]) + [s[0]]
  }

  lemma {:induction false} BackwardsOne(s: seq<Name>, x: Name)
    ensures Backwards(s + [x]) == [x] + Backwards(s)
  {
    if s != [] {
      BackwardsOne(s[1..], x);
      assert (s + [x])[1..] == s[1..] + [x];
    } else {
      assert Backwards([x]) == [x] + Backwards([]);
    }
  }

  lemma {:induction false} BackwardsTwice(s: seq<Name>)
    ensures Backwards(Backwards(s)) == s
  {
    if s != [] {
      BackwardsTwice(s[1..]);
      BackwardsOne(Backwards(s[1..]), s[0]);
    }
  }

  lemma {:induction false} PutsBoth(a: seq<Line>, b: seq<Line>)
    ensures Puts(a + b) == Puts(a) + Puts(b)
  {
    if b == [] {
      assert a + b == a;
    } else {
      PutsBoth(a, b[..|b| - 1]);
      assert (a + b)[..|a + b| - 1] == a + b[..|b| - 1];
    }
  }

  lemma {:induction false} PutsMore(s: Store, a: seq<Line>, b: seq<Line>)
    ensures Run(s, Puts(a + b)) == Run(Run(s, Puts(a)), Puts(b))
    ensures KeysOf(a + b) == KeysOf(a) + KeysOf(b)
  {
    PutsBoth(a, b);
    RunConcat(s, Puts(a), Puts(b));
    KeysOfBoth(a, b);
  }

  lemma {:induction false} LinesInOne(ledger: seq<Line>, tables: seq<Name>, t: Name)
    ensures LinesIn(ledger, tables + [t]) == LinesIn(ledger, tables) + LinesOf(ledger, t)
  {
    assert (tables + [t])[..|tables|] == tables;
  }

  lemma {:induction false} KeysIn(lines: seq<Line>, i: nat)
    requires i < |lines|
    ensures lines[i].keys <= KeysOf(lines)
  {
    if i < |lines| - 1 {
      KeysIn(lines[..|lines| - 1], i);
    }
  }

  lemma {:induction false} SameBefore(names: seq<Name>, tables: seq<Name>, edges: seq<Edge>)
    requires forall t :: t in names <==> t in tables
    ensures Before(names, edges) == Before(tables, edges)
  {
    forall t | t in names ensures Before(names, edges)[t] == Before(tables, edges)[t] {
    }
  }

  lemma {:induction false} AllInTurn(s: Store, order: seq<Name>, tables: seq<Name>)
    requires WellFormed(s.ledger) && KeysOf(LinesIn(s.ledger, tables)) <= s.archive.Keys
    requires tables == Backwards(order) && forall t :: LinesOf(s.ledger, t) != [] ==> t in order
    ensures Owed(s.ledger) <= s.archive.Keys && Backwards(tables) == order
    ensures Run(s, Puts(LinesIn(s.ledger, tables))).source == PutAll(s)
    ensures Owed(Run(s, Puts(LinesIn(s.ledger, tables))).ledger) == {}
  {
    LinesInKeys(s.ledger, tables);
    forall k | k in Owed(s.ledger) ensures k in KeysOf(LinesIn(s.ledger, tables)) {
      OwedIsLines(s.ledger, k.table);
      assert k in KeysOf(LinesOf(s.ledger, k.table));
    }
    AllPutBack(s, tables);
    BackwardsTwice(order);
  }
}
