// What writing a plan means: the rows of any tables end as applying the
// batch's changes in order would leave them, written once or twice
// (`migkit/applyway.py`).
module PlanMeaning {
  import opened LastEvent
  import opened Occurrences
  import opened NetRows
  import opened Changes
  import opened ApplyWay
  import opened Plans

  // ---- The groups hold the net's rows

  lemma {:induction false} FlatConcat(a: seq<Group>, b: seq<Group>)
    ensures Flat(a + b) == Flat(a) + Flat(b)
  {
    if a == [] {
      assert a + b == b;
    } else {
      assert (a + b)[1..] == a[1..] + b;
      FlatConcat(a[1..], b);
    }
  }

  lemma {:induction false} InsertHas(g: Group, gs: seq<Group>, x: Touch)
    ensures x in Flat(Insert(g, gs)) <==> x in g.rows || x in Flat(gs)
  {
    if gs == [] || FirstNumber(g) <= FirstNumber(gs[0]) {
      assert ([g] + gs)[1..] == gs;
    } else {
      InsertHas(g, gs[1..], x);
      assert ([gs[0]] + Insert(g, gs[1..]))[1..] == Insert(g, gs[1..]);
    }
  }

  lemma {:induction false} RankedHas(gs: seq<Group>, x: Touch)
    ensures x in Flat(Ranked(gs)) <==> x in Flat(gs)
  {
    if gs != [] {
      RankedHas(gs[1..], x);
      InsertHas(gs[0], Ranked(gs[1..]), x);
    }
  }

  lemma {:induction false} KindGroupsHas(tables: seq<TableNet>, kind: Kind, x: Touch)
    ensures x in Flat(KindGroups(tables, kind)) <==> x.row.kind == kind && exists i :: 0 <= i < |tables| && x in tables[i].rows
  {
    if tables != [] {
      KindGroupsHas(tables[1..], kind, x);
      OfKindHas(tables[0].rows, kind, x);
      var mine := OfKind(tables[0].rows, kind);
      var here := if mine == [] then [] else [Group(tables[0].table, kind, mine)];
      FlatConcat(here, KindGroups(tables[1..], kind));
      assert Flat(here) == mine;
      if i :| 0 <= i < |tables[1..]| && x in tables[1..][i].rows {
        assert x in tables[i + 1].rows;
      }
      if i :| 0 <= i < |tables| && x in tables[i].rows {
        assert i > 0 ==> x in tables[1..][i - 1].rows;
      }
    }
  }

  // The grouped rows are the net's rows, no more and no fewer.
  lemma {:induction false} GroupsHoldTheNet(changes: seq<Change>, tables: seq<TableNet>, x: Touch)
    requires Keyed(changes) && Collapses(changes, tables)
    ensures x in Flat(GroupsOf(tables)) <==> x in Net(BatchTouches(changes))
  {
    var named, net := FirstTouched(TablesOf(changes)), Net(BatchTouches(changes));
    FlatConcat(Ranked(KindGroups(tables, Delete)), Ranked(KindGroups(tables, Upsert)));
    RankedHas(KindGroups(tables, Delete), x);
    RankedHas(KindGroups(tables, Upsert), x);
    KindGroupsHas(tables, Delete, x);
    KindGroupsHas(tables, Upsert, x);
    forall i | 0 <= i < |tables| ensures x in tables[i].rows <==> x in net && x.row.table == named[i] {
      InTableHas(net, named[i], x);
    }
    if x in net {
      NetRowIsTouched(BatchTouches(changes), x);
      TouchedTableIsNamed(changes, Upto(|changes|), x.row);
      var i :| 0 <= i < |named| && named[i] == x.row.table;
      assert x in tables[i].rows;
    }
  }

  lemma {:induction false} EventsOfSame(a: seq<Touch>, b: seq<Touch>)
    requires forall x :: x in a ==> x in b
    ensures forall e :: e in EventsOf(a) ==> e in EventsOf(b)
  {
    forall e | e in EventsOf(a) ensures e in EventsOf(b) {
      var i :| 0 <= i < |a| && EventsOf(a)[i] == e;
      assert a[i] in a;
      var j :| 0 <= j < |b| && b[j] == a[i];
      assert EventsOf(b)[j] == e;
    }
  }

  function LooseRows(plan: Plan): seq<Touch> {
    match plan.rows case Ungrouped(rows) => rows case Grouped(groups) => Flat(groups)
  }

  lemma {:induction false} LooseRowsAreTheNet(changes: seq<Change>, ordered: Option<set<string>>, plan: Plan, x: Touch)
    requires IsPlan(changes, ordered, plan)
    ensures x in LooseRows(plan) <==> x in Net(BatchTouches(Part(changes, OrderedTables(ordered), false)))
  {
    var loose := Part(changes, OrderedTables(ordered), false);
    if ordered.Some? {
      var tables :| Collapses(loose, tables) && plan.rows == Grouped(GroupsOf(tables));
      GroupsHoldTheNet(loose, tables, x);
    }
  }

  // Whichever way the loose rows are laid out, writing them leaves what the
  // loose changes' touches leave.
  lemma {:induction false} LooseRowsLeaveTheSame(changes: seq<Change>, ordered: Option<set<string>>, plan: Plan, store: Store)
    requires IsPlan(changes, ordered, plan)
    ensures DoAll(store, EventsOf(LooseRows(plan))) == DoAll(store, EventsOf(BatchTouches(Part(changes, OrderedTables(ordered), false))))
  {
    var ts := BatchTouches(Part(changes, OrderedTables(ordered), false));
    forall x ensures x in LooseRows(plan) <==> x in Net(ts) {
      LooseRowsAreTheNet(changes, ordered, plan, x);
    }
    EventsOfSame(LooseRows(plan), Net(ts));
    EventsOfSame(Net(ts), LooseRows(plan));
    NetDistinct(ts);
    SameEventsSameTable(store, EventsOf(LooseRows(plan)), EventsOf(Net(ts)));
    NetLeavesTheSame(store, ts);
  }

  // ---- Bound first, then loose, is in order

  function ChangeEvents(changes: seq<Change>): seq<Event<Place, Cells>>
    requires Keyed(changes)
  {
    if changes == [] then []
    else ChangeEvents(changes[..|changes| - 1]) + EventsOf(TouchesOf(changes[|changes| - 1], 0))
  }

  lemma {:induction false} TouchEventsAreChangeEvents(changes: seq<Change>, at: seq<nat>)
    requires Keyed(changes) && |at| == |changes|
    ensures EventsOf(Touches(changes, at)) == ChangeEvents(changes)
  {
    if changes != [] {
      var n := |changes| - 1;
      TouchEventsAreChangeEvents(changes[..n], at[..n]);
      assert EventsOf(TouchesOf(changes[n], at[n])) == EventsOf(TouchesOf(changes[n], 0));
      assert EventsOf(Touches(changes, at)) == EventsOf(Touches(changes[..n], at[..n])) + EventsOf(TouchesOf(changes[n], at[n]));
    }
  }

  lemma {:induction false} ChangeEventsGrow(changes: seq<Change>, c: Change)
    requires Keyed(changes) && Keyed(changes + [c])
    ensures c.key.Some? && ChangeEvents(changes + [c]) == ChangeEvents(changes) + EventsOf(TouchesOf(c, 0))
  {
    assert c in changes + [c];
    assert (changes + [c])[..|changes|] == changes;
  }

  lemma {:induction false} OtherTablesUntouched(c: Change, p: Place)
    requires c.key.Some? && c.table != p.table
    ensures LastLeft(EventsOf(TouchesOf(c, 0)), p).None?
  {
    LastLeftTouched(EventsOf(TouchesOf(c, 0)), p);
  }

  lemma {:induction false} PartGrows(changes: seq<Change>, c: Change, ordered: set<string>, bound: bool)
    ensures Part(changes + [c], ordered, bound)
         == if (c.table in ordered) == bound then Part(changes, ordered, bound) + [c] else Part(changes, ordered, bound)
  {
    assert (changes + [c])[..|changes|] == changes;
  }

  lemma {:induction false} LastAfterOneMore(changes: seq<Change>, c: Change, p: Place)
    requires Keyed(changes) && Keyed(changes + [c])
    ensures c.key.Some?
    ensures var here := LastLeft(EventsOf(TouchesOf(c, 0)), p);
            LastLeft(ChangeEvents(changes + [c]), p) == if here.Some? then here else LastLeft(ChangeEvents(changes), p)
    ensures c.table != p.table ==> LastLeft(ChangeEvents(changes + [c]), p) == LastLeft(ChangeEvents(changes), p)
  {
    ChangeEventsGrow(changes, c);
    LastLeftConcat(ChangeEvents(changes), EventsOf(TouchesOf(c, 0)), p);
    if c.table != p.table {
      OtherTablesUntouched(c, p);
    }
  }

  // What is last at `p` among one part of the changes.
  function LastOf(changes: seq<Change>, p: Place): Option<Option<Cells>>
    requires Keyed(changes)
  {
    LastLeft(ChangeEvents(changes), p)
  }

  lemma {:induction false} LastInPartOneMore(before: seq<Change>, c: Change, ordered: set<string>, bound: bool, p: Place)
    requires Keyed(before) && Keyed(before + [c])
    requires LastOf(Part(before, ordered, bound), p) == if (p.table in ordered) == bound then LastOf(before, p) else None
    ensures LastOf(Part(before + [c], ordered, bound), p) == if (p.table in ordered) == bound then LastOf(before + [c], p) else None
  {
    PartGrows(before, c, ordered, bound);
    LastAfterOneMore(before, c, p);
    if (c.table in ordered) == bound {
      LastAfterOneMore(Part(before, ordered, bound), c, p);
    }
  }

  // At every place, what is last among all changes is last among the part
  // the place's table belongs to; the other part never touches it.
  lemma {:induction false} LastInPart(changes: seq<Change>, ordered: set<string>, bound: bool, p: Place)
    requires Keyed(changes)
    ensures LastOf(Part(changes, ordered, bound), p) == if (p.table in ordered) == bound then LastOf(changes, p) else None
  {
    if changes != [] {
      var c, before := changes[|changes| - 1], changes[..|changes| - 1];
      assert changes == before + [c];
      LastInPart(before, ordered, bound, p);
      LastInPartOneMore(before, c, ordered, bound, p);
    }
  }

  lemma {:induction false} BoundThenLoose(store: Store, changes: seq<Change>, ordered: set<string>)
    requires Keyed(changes)
    ensures DoAll(DoAll(store, EventsOf(BatchTouches(Part(changes, ordered, true)))), EventsOf(BatchTouches(Part(changes, ordered, false))))
         == DoAll(store, EventsOf(BatchTouches(changes)))
  {
    var bound, loose := Part(changes, ordered, true), Part(changes, ordered, false);
    TouchEventsAreChangeEvents(bound, Upto(|bound|));
    TouchEventsAreChangeEvents(loose, Upto(|loose|));
    TouchEventsAreChangeEvents(changes, Upto(|changes|));
    DoAllConcat(store, ChangeEvents(bound), ChangeEvents(loose));
    forall p ensures LastLeft(ChangeEvents(bound) + ChangeEvents(loose), p) == LastLeft(ChangeEvents(changes), p) {
      LastInPart(changes, ordered, true, p);
      LastInPart(changes, ordered, false, p);
      LastLeftConcat(ChangeEvents(bound), ChangeEvents(loose), p);
    }
    SameLastSameTable(store, ChangeEvents(bound) + ChangeEvents(loose), ChangeEvents(changes));
  }

  // ---- Writing the plan

  lemma {:induction false} PlanRowsFit(changes: seq<Change>, ordered: Option<set<string>>, plan: Plan, cols: map<string, set<string>>)
    requires IsPlan(changes, ordered, plan) && Keyed(changes)
    requires forall c :: c in changes && Writes(c) ==> c.table in cols && Names(c) == cols[c.table]
    ensures forall r :: r in PlanRows(plan) ==> Fits(cols, r)
  {
    var bound, loose := Part(changes, OrderedTables(ordered), true), Part(changes, OrderedTables(ordered), false);
    AllTouchesFit(cols, bound, Upto(|bound|));
    AllTouchesFit(cols, loose, Upto(|loose|));
    forall x | x in LooseRows(plan) ensures Fits(cols, x.row) {
      LooseRowsAreTheNet(changes, ordered, plan, x);
      NetRowIsTouched(BatchTouches(loose), x);
    }
    RowsFit(cols, BatchTouches(bound));
    RowsFit(cols, LooseRows(plan));
    assert PlanRows(plan) == RowList(BatchTouches(bound)) + RowList(LooseRows(plan));
  }

  lemma {:induction false} RowsFit(cols: map<string, set<string>>, ts: seq<Touch>)
    requires forall x :: x in ts ==> Fits(cols, x.row)
    ensures forall r :: r in RowList(ts) ==> Fits(cols, r)
  {
    forall r | r in RowList(ts) ensures Fits(cols, r) {
      var i :| 0 <= i < |ts| && RowList(ts)[i] == r;
      assert ts[i] in ts;
    }
  }

  lemma {:induction false} PlanEvents(changes: seq<Change>, ordered: Option<set<string>>, plan: Plan)
    requires IsPlan(changes, ordered, plan)
    ensures RowEvents(PlanRows(plan)) == EventsOf(BatchTouches(Part(changes, OrderedTables(ordered), true))) + EventsOf(LooseRows(plan))
  {
    var bound := Part(changes, OrderedTables(ordered), true);
    RowEventsConcat(BatchTouches(bound), LooseRows(plan));
    assert PlanRows(plan) == RowList(BatchTouches(bound)) + RowList(LooseRows(plan));
  }

  lemma {:induction false} RowEventsConcat(a: seq<Touch>, b: seq<Touch>)
    ensures RowEvents(RowList(a) + RowList(b)) == EventsOf(a) + EventsOf(b)
  {
  }

  // The main result. For every batch the columns way takes, and every store
  // whose rows the batch's writes carry whole, writing the plan's rows -
  // deletes and then upserts, or in first-touch order - leaves exactly what
  // applying the changes one by one leaves.
  lemma {:induction false} PlanIsInOrder(changes: seq<Change>, ordered: Option<set<string>>, plan: Plan, cols: map<string, set<string>>, store: Store)
    requires IsPlan(changes, ordered, plan) && Keyed(changes) && WholeRows(cols, store, changes)
    ensures WriteAll(store, PlanRows(plan)) == ApplyAll(store, changes)
    ensures Within(cols, WriteAll(store, PlanRows(plan)))
  {
    PlanRowsFit(changes, ordered, plan, cols);
    WritesAreEvents(cols, store, PlanRows(plan));
    PlanEvents(changes, ordered, plan);
    var bound := BatchTouches(Part(changes, OrderedTables(ordered), true));
    DoAllConcat(store, EventsOf(bound), EventsOf(LooseRows(plan)));
    LooseRowsLeaveTheSame(changes, ordered, plan, DoAll(store, EventsOf(bound)));
    BoundThenLoose(store, changes, OrderedTables(ordered));
    ChangesAreTheirTouches(cols, store, changes, Upto(|changes|));
  }

  lemma {:induction false} WriteAllConcat(store: Store, a: seq<NetRow>, b: seq<NetRow>)
    ensures WriteAll(store, a + b) == WriteAll(WriteAll(store, a), b)
  {
    if b == [] {
      assert a + b == a;
    } else {
      WriteAllConcat(store, a, b[..|b| - 1]);
      assert (a + b)[..|a + b| - 1] == a + b[..|b| - 1];
    }
  }

  // A run of rows of one table and kind, row after row.
  method ApplyRun(store: Store, rows: seq<NetRow>) returns (after: Store)
    ensures after == WriteAll(store, rows)
  {
    after := store;
    for i := 0 to |rows|
      invariant after == WriteAll(store, rows[..i])
    {
      assert rows[..i + 1][..i] == rows[..i];
      after := WriteRow(after, rows[i]);
    }
    assert rows[..|rows|] == rows;
  }

  lemma {:induction false} OneGroupMore(bound: seq<NetRow>, groups: seq<Group>, i: nat)
    requires i < |groups|
    ensures bound + RowList(Flat(groups[..i + 1])) == (bound + RowList(Flat(groups[..i]))) + RowList(groups[i].rows)
  {
    FlatOneMore(groups, i);
    assert RowList(Flat(groups[..i + 1])) == RowList(Flat(groups[..i])) + RowList(groups[i].rows);
  }

  lemma {:induction false} FlatOneMore(groups: seq<Group>, i: nat)
    requires i < |groups|
    ensures Flat(groups[..i + 1]) == Flat(groups[..i]) + groups[i].rows
  {
    FlatConcat(groups[..i], [groups[i]]);
    assert groups[..i + 1] == groups[..i] + [groups[i]];
    assert [groups[i]][1..] == [] && Flat([groups[i]]) == groups[i].rows;
  }

  // The plan written: in one list where the tables are not known apart, else
  // the bound rows and then a run a group.
  method WritePlan(plan: Plan, store: Store) returns (after: Store)
    ensures after == WriteAll(store, PlanRows(plan))
  {
    if plan.rows.Ungrouped? {
      after := ApplyRun(store, PlanRows(plan));
      return;
    }
    after := ApplyRun(store, plan.bound);
    var groups := plan.rows.groups;
    assert plan.bound + RowList(Flat(groups[..0])) == plan.bound;
    for i := 0 to |groups|
      invariant after == WriteAll(store, plan.bound + RowList(Flat(groups[..i])))
    {
      OneGroupMore(plan.bound, groups, i);
      WriteAllConcat(store, plan.bound + RowList(Flat(groups[..i])), RowList(groups[i].rows));
      after := ApplyRun(after, RowList(groups[i].rows));
    }
    assert groups[..|groups|] == groups;
  }

  // ---- Why the rows must be carried whole

  const KEY: Record := Dict(["id"], map["id" := Int(1)])
  const GONE := Change("t", "delete", Some(KEY), None)
  const AGAIN := Change("t", "insert", Some(KEY), None)
  const HELD: Store := map[Place("t", KEY.at) := map["id" := Int(1), "note" := Text("kept")]]
  const NARROW := Plan([], Ungrouped(NET))
  const NET := [Touch(0, NetRow("t", Upsert, KEY.at, map[]))]

  lemma {:induction false} TwoInOrder(store: Store, a: Change, b: Change)
    requires Keyed([a, b])
    ensures a.key.Some? && b.key.Some? && ApplyAll(store, [a, b]) == ApplyChange(ApplyChange(store, a), b)
  {
    var two := [a, b];
    assert a in two && b in two && two[..1] == [a] && [a][..0] == [];
    assert ApplyAll(store, [a]) == ApplyChange(store, a);
  }

  lemma {:induction false} NetOfTwo()
    ensures Net(BatchTouches([GONE, AGAIN])) == NET
  {
    TwoTouched(GONE, AGAIN);
    var first, second := Touch(0, NetRow("t", Delete, KEY.at, map[])), Touch(2, NetRow("t", Upsert, KEY.at, map[]));
    assert TouchesOf(GONE, 0) == [first] && TouchesOf(AGAIN, 1) == [second];
    NetOfPair(first, second);
  }

  lemma {:induction false} NetOfPair(a: Touch, b: Touch)
    ensures [a] + [b] == [a, b] && Net([a] + [b]) == Settle([a], b)
  {
    var ts, none := [a, b], [a][..0];
    assert ts[..1] == [a] && none == [];
    assert Net([a]) == Settle(Net(none), a);
  }

  lemma {:induction false} TwoIsPlan()
    ensures IsPlan([GONE, AGAIN], None, NARROW)
  {
    PartsOfTwo(GONE, AGAIN);
    NetOfTwo();
    UngroupedIsPlan([GONE, AGAIN], NET);
  }

  lemma {:induction false} UngroupedIsPlan(changes: seq<Change>, net: seq<Touch>)
    requires Part(changes, {}, true) == [] && Part(changes, {}, false) == changes
    requires Keyed(changes) && net == Net(BatchTouches(changes))
    ensures IsPlan(changes, None, Plan([], Ungrouped(net)))
  {
  }

  lemma {:induction false} PartsOfTwo(a: Change, b: Change)
    ensures Part([a, b], {}, true) == [] && Part([a, b], {}, false) == [a, b]
  {
    assert [] + [a] == [a] && [a] + [b] == [a, b];
    PartGrows([], a, {}, true);
    PartGrows([a], b, {}, true);
    PartGrows([], a, {}, false);
    PartGrows([a], b, {}, false);
  }

  lemma {:induction false} WriteOne(store: Store, row: NetRow)
    ensures WriteAll(store, [row]) == WriteRow(store, row)
  {
    assert [row][..0] == [];
  }

  lemma {:induction false} NarrowKeepsTheNote()
    ensures var p := Place("t", KEY.at);
            && p in WriteAll(HELD, PlanRows(NARROW)) && "note" in WriteAll(HELD, PlanRows(NARROW))[p]
  {
    var row := NET[0].row;
    assert RowList(NET) == [row] && [] + [row] == [row];
    WriteOne(HELD, row);
    assert PlaceOf(row) == Place("t", KEY.at);
    assert WriteRow(HELD, row)[PlaceOf(row)] == HELD[PlaceOf(row)] + row.key + row.values;
  }

  lemma {:induction false} InOrderDropsTheNote()
    ensures var p := Place("t", KEY.at);
            Keyed([GONE, AGAIN]) && p in ApplyAll(HELD, [GONE, AGAIN]) && "note" !in ApplyAll(HELD, [GONE, AGAIN])[p]
  {
    TwoInOrder(HELD, GONE, AGAIN);
  }

  // A row deleted and inserted again with fewer columns than its table has
  // keeps, collapsed, the deleted row's others.
  lemma {:induction false} PartialRowsAreNotKept()
    ensures Keyed([GONE, AGAIN]) && IsPlan([GONE, AGAIN], None, NARROW)
    ensures WriteAll(HELD, PlanRows(NARROW)) != ApplyAll(HELD, [GONE, AGAIN])
  {
    TwoIsPlan();
    NarrowKeepsTheNote();
    InOrderDropsTheNote();
  }
}
