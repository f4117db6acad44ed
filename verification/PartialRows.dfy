// Rows not carried whole: where a plan leaves what the changes in order do
// (`migkit/applyway.py`).
module PartialRows {
  import opened LastEvent
  import opened Occurrences
  import opened NetRows
  import opened Changes
  import opened ApplyWay
  import opened Plans
  import opened PlanMeaning
  import opened RowsWay

  // ---- The columns a table's writes do not carry

  ghost predicate WritesAlike(cols: map<string, set<string>>, changes: seq<Change>)
    requires Keyed(changes)
  {
    forall c :: c in changes && Writes(c) ==> c.table in cols && Names(c) == cols[c.table]
  }

  function Carried(cols: map<string, set<string>>, p: Place): set<string> {
    if p.table in cols then cols[p.table] else {}
  }

  function Others(cols: map<string, set<string>>, p: Place, row: Cells): Cells { row - Carried(cols, p) }

  // Where the row that stands at `p` after the changes stood before them: its
  // moves followed back. None where it came to be in the batch.
  function Origin(changes: seq<Change>, p: Place): Option<Place>
    requires Keyed(changes)
  {
    if changes == [] then Some(p)
    else
      var before, c := changes[..|changes| - 1], changes[|changes| - 1];
      var left := Place(c.table, c.key.value.at);
      if Writes(c) && p == Place(c.table, Arrival(c)) then Origin(before, left)
      else if p == left then None
      else Origin(before, p)
  }

  // The row the changes in order bring to `p`, as the store had it.
  function Brought(store: Store, changes: seq<Change>, p: Place): Cells
    requires Keyed(changes)
  {
    var from := Origin(changes, p);
    if from.Some? then RowAt(store, from.value) else map[]
  }

  lemma {:induction false} OneChangeOthers(cols: map<string, set<string>>, store: Store, c: Change, p: Place)
    requires c.key.Some? && (Writes(c) ==> c.table in cols && Names(c) == cols[c.table])
    ensures Others(cols, p, RowAt(ApplyChange(store, c), p))
         == if Writes(c) && p == Place(c.table, Arrival(c)) then Others(cols, p, RowAt(store, Place(c.table, c.key.value.at)))
            else if p == Place(c.table, c.key.value.at) then map[]
            else Others(cols, p, RowAt(store, p))
  {
  }

  // In order, the other columns of a row are those it was brought with.
  lemma {:induction false} OthersAreBrought(cols: map<string, set<string>>, store: Store, changes: seq<Change>, p: Place)
    requires Keyed(changes) && WritesAlike(cols, changes)
    ensures Others(cols, p, RowAt(ApplyAll(store, changes), p)) == Others(cols, p, Brought(store, changes, p))
  {
    if changes != [] {
      var before, c := changes[..|changes| - 1], changes[|changes| - 1];
      var left := Place(c.table, c.key.value.at);
      OneChangeOthers(cols, ApplyAll(store, before), c, p);
      OthersAreBrought(cols, store, before, left);
      OthersAreBrought(cols, store, before, p);
    }
  }

  // ---- What stands at a place, once `over` says whose other columns it has

  // A place nothing touches is as it was, one last deleted is empty, and one
  // last upserted is that row over the other columns of `over`.
  function Standing(cols: map<string, set<string>>, store: Store, last: Option<Option<Cells>>, p: Place, over: Cells): Option<Cells> {
    match last
    case None => Lookup(store, p)
    case Some(None) => None
    case Some(Some(row)) => Some(Others(cols, p, over) + row)
  }

  // What one change leaves at `p`, where it touches it.
  lemma {:induction false} LastOfChange(c: Change, p: Place)
    requires c.key.Some?
    ensures LastLeft(EventsOf(TouchesOf(c, 0)), p)
         == if Writes(c) && p == Place(c.table, Arrival(c)) then Some(Some(Arrival(c) + Values(c).at))
            else if p == Place(c.table, c.key.value.at) then Some(None)
            else None
  {
    var es := EventsOf(TouchesOf(c, 0));
    if Writes(c) && Moves(c) {
      MovedPlacesDiffer(c);
      LastOfTwo(es, p);
    } else {
      LastOfOne(es, p);
    }
  }

  lemma {:induction false} OneChangeLast(cols: map<string, set<string>>, store: Store, c: Change, p: Place)
    requires c.key.Some? && (Writes(c) ==> c.table in cols && Names(c) == cols[c.table])
    ensures var last, now := LastLeft(EventsOf(TouchesOf(c, 0)), p), ApplyChange(store, c);
            Lookup(now, p) == Standing(cols, store, last, p, RowAt(now, p))
  {
    LastOfChange(c, p);
    if Writes(c) && p == Place(c.table, Arrival(c)) {
      var was, row := RowAt(store, Place(c.table, c.key.value.at)), Arrival(c) + Values(c).at;
      Overlaid(was, row);
      assert ApplyChange(store, c)[p] == was + row;
    }
  }

  lemma {:induction false} Overlaid(was: Cells, row: Cells)
    ensures (was + row) - row.Keys + row == was + row
  {
  }

  lemma {:induction false} LastOfOne<K, V>(es: seq<Event<K, V>>, k: K)
    requires |es| == 1
    ensures LastLeft(es, k) == if es[0].key == k then Some(es[0].left) else None
  {
  }

  lemma {:induction false} LastOfTwo<K, V>(es: seq<Event<K, V>>, k: K)
    requires |es| == 2
    ensures LastLeft(es, k) == if es[1].key == k then Some(es[1].left) else if es[0].key == k then Some(es[0].left) else None
  {
    LastOfOne(es[..1], k);
  }

  lemma {:induction false} OneMoreStanding(cols: map<string, set<string>>, store: Store, mid: Store, last: Option<Option<Cells>>, c: Change, p: Place)
    requires c.key.Some? && (Writes(c) ==> c.table in cols && Names(c) == cols[c.table])
    requires Lookup(mid, p) == Standing(cols, store, last, p, RowAt(mid, p))
    ensures var here, now := LastLeft(EventsOf(TouchesOf(c, 0)), p), ApplyChange(mid, c);
            Lookup(now, p) == Standing(cols, store, if here.Some? then here else last, p, RowAt(now, p))
  {
    OneChangeLast(cols, mid, c, p);
    if LastLeft(EventsOf(TouchesOf(c, 0)), p).None? {
      UntouchedStays(mid, c, p);
    }
  }

  lemma {:induction false} StandingAsIs(cols: map<string, set<string>>, store: Store, changes: seq<Change>, p: Place)
    requires Keyed(changes) && WritesAlike(cols, changes)
    ensures var now := ApplyAll(store, changes); Lookup(now, p) == Standing(cols, store, LastOf(changes, p), p, RowAt(now, p))
  {
    if changes != [] {
      var before, c := changes[..|changes| - 1], changes[|changes| - 1];
      assert changes == before + [c];
      StandingAsIs(cols, store, before, p);
      LastAfterOneMore(before, c, p);
      OneMoreStanding(cols, store, ApplyAll(store, before), LastOf(before, p), c, p);
    }
  }

  // In order, a place stands as its last touch says, over what was brought.
  lemma {:induction false} InOrderStanding(cols: map<string, set<string>>, store: Store, changes: seq<Change>, p: Place)
    requires Keyed(changes) && WritesAlike(cols, changes)
    ensures Lookup(ApplyAll(store, changes), p) == Standing(cols, store, LastOf(changes, p), p, Brought(store, changes, p))
  {
    StandingAsIs(cols, store, changes, p);
    OthersAreBrought(cols, store, changes, p);
  }

  lemma {:induction false} UntouchedStays(store: Store, c: Change, p: Place)
    requires c.key.Some? && LastLeft(EventsOf(TouchesOf(c, 0)), p).None?
    ensures RowAt(ApplyChange(store, c), p) == RowAt(store, p)
  {
    LastOfChange(c, p);
  }

  // ---- Writing the plan

  // The row a place's upserts are put over: none where one of the rows
  // written takes the row there off.
  function Kept(store: Store, rows: seq<NetRow>, p: Place): Cells {
    if exists r :: r in rows && r.kind == Delete && PlaceOf(r) == p then map[] else RowAt(store, p)
  }

  lemma {:induction false} KeptGrows(store: Store, rows: seq<NetRow>, r: NetRow, p: Place)
    ensures Kept(store, rows + [r], p) == if r.kind == Delete && PlaceOf(r) == p then map[] else Kept(store, rows, p)
  {
    if x :| x in rows && x.kind == Delete && PlaceOf(x) == p {
      assert x in rows + [r];
    } else if r.kind == Delete && PlaceOf(r) == p {
      assert r in rows + [r];
    }
  }

  // However rows are written, the other columns of one that is there are
  // those it was found with, unless it was taken off.
  lemma {:induction false} OthersAreKept(cols: map<string, set<string>>, store: Store, rows: seq<NetRow>, p: Place)
    requires forall r :: r in rows ==> Fits(cols, r)
    ensures Others(cols, p, RowAt(WriteAll(store, rows), p)) == Others(cols, p, Kept(store, rows, p))
  {
    if rows != [] {
      var before, r := rows[..|rows| - 1], rows[|rows| - 1];
      assert rows == before + [r];
      OthersAreKept(cols, store, before, p);
      KeptGrows(store, before, r, p);
      assert Fits(cols, r);
      OneWriteOthers(cols, WriteAll(store, before), r, p);
    }
  }

  lemma {:induction false} OneWriteOthers(cols: map<string, set<string>>, store: Store, r: NetRow, p: Place)
    requires Fits(cols, r)
    ensures Others(cols, p, RowAt(WriteRow(store, r), p))
         == if r.kind == Delete && PlaceOf(r) == p then map[] else Others(cols, p, RowAt(store, p))
  {
  }

  lemma {:induction false} OneWriteStanding(cols: map<string, set<string>>, store: Store, mid: Store, last: Option<Option<Cells>>, r: NetRow, p: Place)
    requires Fits(cols, r) && Lookup(mid, p) == Standing(cols, store, last, p, RowAt(mid, p))
    ensures var now := WriteRow(mid, r);
            Lookup(now, p) == Standing(cols, store, if PlaceOf(r) == p then Some(EventOf(r).left) else last, p, RowAt(now, p))
  {
    if r.kind == Upsert && PlaceOf(r) == p {
      var was, row := RowAt(mid, p), r.key + r.values;
      assert was + r.key + r.values == was + row;
      Overlaid(was, row);
    }
  }

  lemma {:induction false} WrittenStandingAsIs(cols: map<string, set<string>>, store: Store, rows: seq<NetRow>, p: Place)
    requires forall r :: r in rows ==> Fits(cols, r)
    ensures var now := WriteAll(store, rows); Lookup(now, p) == Standing(cols, store, LastLeft(RowEvents(rows), p), p, RowAt(now, p))
  {
    if rows != [] {
      var before, r := rows[..|rows| - 1], rows[|rows| - 1];
      WrittenStandingAsIs(cols, store, before, p);
      assert RowEvents(rows)[..|rows| - 1] == RowEvents(before);
      assert Fits(cols, r);
      OneWriteStanding(cols, store, WriteAll(store, before), LastLeft(RowEvents(before), p), r, p);
    }
  }

  // Written, a place stands as its last row says, over what was kept.
  lemma {:induction false} WrittenStanding(cols: map<string, set<string>>, store: Store, rows: seq<NetRow>, p: Place)
    requires forall r :: r in rows ==> Fits(cols, r)
    ensures Lookup(WriteAll(store, rows), p) == Standing(cols, store, LastLeft(RowEvents(rows), p), p, Kept(store, rows, p))
  {
    WrittenStandingAsIs(cols, store, rows, p);
    OthersAreKept(cols, store, rows, p);
  }

  lemma {:induction false} WrittenAgainAt(cols: map<string, set<string>>, store: Store, rows: seq<NetRow>, p: Place)
    requires forall r :: r in rows ==> Fits(cols, r)
    ensures Lookup(WriteAll(WriteAll(store, rows), rows), p) == Lookup(WriteAll(store, rows), p)
  {
    var once := WriteAll(store, rows);
    WrittenStanding(cols, store, rows, p);
    WrittenStanding(cols, once, rows, p);
    OthersAreKept(cols, store, rows, p);
    assert Others(cols, p, Kept(once, rows, p)) == Others(cols, p, Kept(store, rows, p));
  }

  // A plan written again changes nothing: a batch replayed is safe, whether
  // its rows are carried whole or not.
  lemma {:induction false} PlanTwiceIsOnce(changes: seq<Change>, ordered: Option<set<string>>, plan: Plan, cols: map<string, set<string>>, store: Store)
    requires IsPlan(changes, ordered, plan) && Keyed(changes) && WritesAlike(cols, changes)
    ensures WriteAll(WriteAll(store, PlanRows(plan)), PlanRows(plan)) == WriteAll(store, PlanRows(plan))
  {
    var rows := PlanRows(plan);
    PlanRowsFit(changes, ordered, plan, cols);
    forall p ensures Lookup(WriteAll(WriteAll(store, rows), rows), p) == Lookup(WriteAll(store, rows), p) {
      WrittenAgainAt(cols, store, rows, p);
    }
    MapsAgree(WriteAll(WriteAll(store, rows), rows), WriteAll(store, rows));
  }

  // At every place the plan's last row is the last of the changes in order.
  lemma {:induction false} PlanLastIsLast(changes: seq<Change>, ordered: Option<set<string>>, plan: Plan, p: Place)
    requires IsPlan(changes, ordered, plan) && Keyed(changes)
    ensures LastLeft(RowEvents(PlanRows(plan)), p) == LastOf(changes, p)
  {
    var on := OrderedTables(ordered);
    var bound, loose := Part(changes, on, true), Part(changes, on, false);
    PlanEvents(changes, ordered, plan);
    LastLeftConcat(EventsOf(BatchTouches(bound)), EventsOf(LooseRows(plan)), p);
    TouchEventsAreChangeEvents(bound, Upto(|bound|));
    LooseLastIsLast(changes, ordered, plan, p);
    LastInPart(changes, on, true, p);
    LastInPart(changes, on, false, p);
  }

  lemma {:induction false} LooseLastIsLast(changes: seq<Change>, ordered: Option<set<string>>, plan: Plan, p: Place)
    requires IsPlan(changes, ordered, plan)
    ensures LastLeft(EventsOf(LooseRows(plan)), p) == LastOf(Part(changes, OrderedTables(ordered), false), p)
  {
    var loose := Part(changes, OrderedTables(ordered), false);
    var ts := BatchTouches(loose);
    forall x ensures x in LooseRows(plan) <==> x in Net(ts) {
      LooseRowsAreTheNet(changes, ordered, plan, x);
    }
    EventsOfSame(LooseRows(plan), Net(ts));
    EventsOfSame(Net(ts), LooseRows(plan));
    NetDistinct(ts);
    SameEventsSameLast(EventsOf(LooseRows(plan)), EventsOf(Net(ts)), p);
    NetLast(ts, p);
    TouchEventsAreChangeEvents(loose, Upto(|loose|));
  }

  // ---- Exactly

  ghost predicate Upserted(changes: seq<Change>, p: Place)
    requires Keyed(changes)
  {
    LastOf(changes, p).Some? && LastOf(changes, p).value.Some?
  }

  // The columns not carried are the same, found there and brought there.
  ghost predicate OthersAgree(cols: map<string, set<string>>, store: Store, changes: seq<Change>, rows: seq<NetRow>, p: Place)
    requires Keyed(changes)
  {
    Others(cols, p, Kept(store, rows, p)) == Others(cols, p, Brought(store, changes, p))
  }

  lemma {:induction false} SameStanding(cols: map<string, set<string>>, store: Store, last: Option<Option<Cells>>, p: Place, a: Cells, b: Cells)
    requires last.Some? && last.value.Some? ==> last.value.value.Keys == Carried(cols, p)
    ensures Standing(cols, store, last, p, a) == Standing(cols, store, last, p, b)
       <==> (last.Some? && last.value.Some? ==> Others(cols, p, a) == Others(cols, p, b))
  {
    if last.Some? && last.value.Some? {
      var row := last.value.value;
      assert Others(cols, p, a) + row - Carried(cols, p) == Others(cols, p, a);
      assert Others(cols, p, b) + row - Carried(cols, p) == Others(cols, p, b);
    }
  }

  lemma {:induction false} LastIsCarried(cols: map<string, set<string>>, changes: seq<Change>, p: Place)
    requires Keyed(changes) && WritesAlike(cols, changes) && Upserted(changes, p)
    ensures LastOf(changes, p).value.value.Keys == Carried(cols, p)
  {
    var before, c := changes[..|changes| - 1], changes[|changes| - 1];
    assert changes == before + [c];
    LastAfterOneMore(before, c, p);
    LastOfChange(c, p);
    if LastLeft(EventsOf(TouchesOf(c, 0)), p).None? {
      LastIsCarried(cols, before, p);
    }
  }

  lemma {:induction false} SameAtExactly(changes: seq<Change>, ordered: Option<set<string>>, plan: Plan, cols: map<string, set<string>>, store: Store, p: Place)
    requires IsPlan(changes, ordered, plan) && Keyed(changes) && WritesAlike(cols, changes)
    ensures Lookup(WriteAll(store, PlanRows(plan)), p) == Lookup(ApplyAll(store, changes), p)
       <==> (Upserted(changes, p) ==> OthersAgree(cols, store, changes, PlanRows(plan), p))
  {
    PlanRowsFit(changes, ordered, plan, cols);
    WrittenStanding(cols, store, PlanRows(plan), p);
    PlanLastIsLast(changes, ordered, plan, p);
    InOrderStanding(cols, store, changes, p);
    if Upserted(changes, p) {
      LastIsCarried(cols, changes, p);
    }
    SameStanding(cols, store, LastOf(changes, p), p, Kept(store, PlanRows(plan), p), Brought(store, changes, p));
  }

  // For every batch whose writes to a table all carry the same columns, and
  // every store: writing the plan leaves what the changes in order leave
  // exactly where, at each place last upserted, the columns not carried agree
  // between the row the plan finds there and the row the changes bring there.
  lemma {:induction false} PlanIsInOrderExactly(changes: seq<Change>, ordered: Option<set<string>>, plan: Plan, cols: map<string, set<string>>, store: Store)
    requires IsPlan(changes, ordered, plan) && Keyed(changes) && WritesAlike(cols, changes)
    ensures WriteAll(store, PlanRows(plan)) == ApplyAll(store, changes)
       <==> forall p :: Upserted(changes, p) ==> OthersAgree(cols, store, changes, PlanRows(plan), p)
  {
    var written, applied := WriteAll(store, PlanRows(plan)), ApplyAll(store, changes);
    forall p ensures Lookup(written, p) == Lookup(applied, p)
                <==> (Upserted(changes, p) ==> OthersAgree(cols, store, changes, PlanRows(plan), p)) {
      SameAtExactly(changes, ordered, plan, cols, store, p);
    }
    if forall p :: Upserted(changes, p) ==> OthersAgree(cols, store, changes, PlanRows(plan), p) {
      MapsAgree(written, applied);
    }
  }

  // A batch the columns take has such columns: its writes to a table carry
  // the same.
  lemma {:induction false} TakenWritesHaveColumns(changes: seq<Change>) returns (cols: map<string, set<string>>)
    requires Keyed(changes) && AllTaken(changes)
    ensures WritesAlike(cols, changes)
  {
    cols := map[];
    for i := 0 to |changes|
      invariant forall t :: t in cols ==> exists c :: c in changes && Writes(c) && c.table == t && cols[t] == Names(c)
      invariant forall j :: 0 <= j < i && Writes(changes[j]) ==> changes[j].table in cols
    {
      if Writes(changes[i]) {
        cols := cols[changes[i].table := Names(changes[i])];
      }
    }
    forall d | d in changes && Writes(d) ensures d.table in cols && Names(d) == cols[d.table] {
      var j :| 0 <= j < |changes| && changes[j] == d;
      var c :| c in changes && Writes(c) && c.table == d.table && cols[d.table] == Names(c);
      TakenWritesAlike(changes, c, d);
    }
  }
}
