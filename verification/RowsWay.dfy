// The rows way: a batch's touches merged one after another in one map of
// places (`migkit/engines/base.py`). The columns way of `migkit/applyway.py`
// leaves exactly its rows, in exactly its order.
module RowsWay {
  import opened LastEvent
  import opened Occurrences
  import opened NetRows
  import opened Changes
  import opened ApplyWay
  import opened Plans
  import opened Refusals

  // What a number is once more is added to it; none where adding makes no
  // sense.
  function Moved(was: Cell, more: int): Option<Cell> {
    match was
    case Int(n) => Some(Int(n + more))
    case Truth(t) => Some(Int((if t then 1 else 0) + more))
    case Fraction(r) => Some(Fraction(r + more as real))
    case _ => None
  }

  // A later value over an earlier one of its column: two additions are one of
  // both, an addition to a value of the batch moves it, and a value kept
  // keeps one the batch wrote.
  function MergeCell(was: Option<Cell>, v: Cell): Cell {
    if was == None then v
    else
      var w := was.value;
      match v
      case Kept(_) => if Plain(w) then w else v
      case Added(more, to) =>
        if w.Added? then Added(w.more + more, to)
        else if Moved(w, more).Some? then Moved(w, more).value
        else v
      case _ => v
  }

  function MergeValues(have: Cells, later: Cells): Cells {
    map k | k in have.Keys + later.Keys :: if k in later then MergeCell(Lookup(have, k), later[k]) else have[k]
  }

  // Later values over earlier ones; a delete starts the row again.
  function MergeRow(have: NetRow, row: NetRow): NetRow {
    if row.kind == Upsert && have.kind == Upsert then NetRow(have.table, Upsert, have.key, MergeValues(have.values, row.values))
    else row
  }

  ghost predicate PlainRow(row: NetRow) { forall k :: k in row.values ==> Plain(row.values[k]) }

  ghost predicate PlainTouches(ts: seq<Touch>) { forall x :: x in ts ==> PlainRow(x.row) }

  lemma {:induction false} PlainMerges(have: Cells, later: Cells)
    requires (forall k :: k in later ==> Plain(later[k])) && have.Keys == later.Keys
    ensures MergeValues(have, later) == later
  {
  }

  function TouchRow(net: seq<NetRow>, row: NetRow): seq<NetRow> {
    if net == [] then [row]
    else if PlaceOf(net[0]) == PlaceOf(row) then [MergeRow(net[0], row)] + net[1..]
    else [net[0]] + TouchRow(net[1..], row)
  }

  function FoldRows(rows: seq<NetRow>): seq<NetRow> {
    if rows == [] then [] else TouchRow(FoldRows(rows[..|rows| - 1]), rows[|rows| - 1])
  }

  // What a batch leaves each row as, in the order rows were first touched.
  function Collapsed(changes: seq<Change>): seq<NetRow>
    requires Keyed(changes)
  {
    FoldRows(RowList(BatchTouches(changes)))
  }

  ghost predicate OneShapeATable(ts: seq<Touch>) {
    forall x, y :: x in ts && y in ts && x.row.table == y.row.table && x.row.kind == y.row.kind == Upsert
      ==> x.row.values.Keys == y.row.values.Keys
  }

  ghost predicate MergesWhole(net: seq<Touch>, x: Touch) {
    forall y :: y in net && PlaceOf(y.row) == PlaceOf(x.row) && y.row.kind == x.row.kind == Upsert
      ==> y.row.values.Keys == x.row.values.Keys
  }

  lemma {:induction false} TouchIsSettle(net: seq<Touch>, x: Touch)
    requires MergesWhole(net, x) && PlainRow(x.row)
    ensures TouchRow(RowList(net), x.row) == RowList(Settle(net, x))
  {
    if net != [] {
      var y, rest := net[0], net[1..];
      assert y in net && net == [y] + rest;
      RowListCons(y, rest);
      if PlaceOf(y.row) == PlaceOf(x.row) {
        if y.row.kind == x.row.kind == Upsert {
          PlainMerges(y.row.values, x.row.values);
        }
        assert MergeRow(y.row, x.row) == x.row;
        RowListCons(Touch(y.number, x.row), rest);
      } else {
        TouchIsSettle(rest, x);
        RowListCons(y, Settle(rest, x));
      }
    }
  }

  lemma {:induction false} RowListCons(t: Touch, ts: seq<Touch>)
    ensures RowList([t] + ts) == [t.row] + RowList(ts)
  {
  }

  lemma {:induction false} FoldIsNet(ts: seq<Touch>)
    requires OneShapeATable(ts) && PlainTouches(ts)
    ensures FoldRows(RowList(ts)) == RowList(Net(ts))
  {
    if ts != [] {
      var before, x := ts[..|ts| - 1], ts[|ts| - 1];
      assert x in ts;
      FoldIsNet(before);
      LastMergesWhole(ts);
      TouchIsSettle(Net(before), x);
      assert RowList(ts)[..|ts| - 1] == RowList(before);
    }
  }

  lemma {:induction false} LastMergesWhole(ts: seq<Touch>)
    requires ts != [] && OneShapeATable(ts)
    ensures MergesWhole(Net(ts[..|ts| - 1]), ts[|ts| - 1])
  {
    var before, x := ts[..|ts| - 1], ts[|ts| - 1];
    forall y | y in Net(before) && PlaceOf(y.row) == PlaceOf(x.row) && y.row.kind == x.row.kind == Upsert
      ensures y.row.values.Keys == x.row.values.Keys
    {
      NetRowIsTouched(before, y);
      var z :| z in before && z.row == y.row;
      assert z in ts && x in ts;
    }
  }

  // ---- A batch the columns take has one shape a table

  lemma {:induction false} TakenWritesAlike(changes: seq<Change>, c: Change, d: Change)
    requires AllTaken(changes) && c in changes && d in changes && c.table == d.table
    ensures c.key.Some? && d.key.Some? && c.key.value.at.Keys == d.key.value.at.Keys
    ensures Writes(c) && Writes(d) ==> Values(c).at.Keys == Values(d).at.Keys
  {
    ChangeIsInItsTable(changes, c);
    ChangeIsInItsTable(changes, d);
    var mine := OfTable(changes, c.table);
    assert TableTaken(changes, c.table) && Alike(mine);
    assert c.key.value.cols == mine[0].key.value.cols == d.key.value.cols;
    SameNames(c.key.value, d.key.value);
    if Writes(c) && Writes(d) {
      SameNames(Values(c), Values(d));
    }
  }

  lemma {:induction false} SameNames(a: Record, b: Record)
    requires a.cols == b.cols
    ensures a.at.Keys == b.at.Keys
  {
    forall k ensures k in a.at <==> k in b.at {}
  }

  // Each touch is of one change of the batch.
  lemma {:induction false} TouchHasChange(changes: seq<Change>, at: seq<nat>, x: Touch) returns (c: Change)
    requires Keyed(changes) && |at| == |changes| && x in Touches(changes, at)
    ensures c in changes && x.row.table == c.table && x.row.key.Keys == c.key.value.at.Keys
    ensures x.row.kind == Upsert ==> Writes(c) && x.row.values == Values(c).at
    ensures x.row.kind == Delete ==> x.row.values == map[]
  {
    var n := |changes| - 1;
    if x in Touches(changes[..n], at[..n]) {
      c := TouchHasChange(changes[..n], at[..n], x);
    } else {
      c := changes[n];
      assert x in TouchesOf(c, at[n]);
    }
  }

  lemma {:induction false} TakenIsPlain(changes: seq<Change>, c: Change)
    requires AllTaken(changes) && c in changes && Writes(c)
    ensures forall k :: k in Values(c).at ==> Plain(Values(c).at[k])
  {
    ChangeIsInItsTable(changes, c);
    assert TableTaken(changes, c.table) && Alike(OfTable(changes, c.table));
    assert CellsHold(c, Plain);
  }

  lemma {:induction false} TakenIsOneShape(changes: seq<Change>)
    requires Keyed(changes) && AllTaken(changes)
    ensures OneShapeATable(BatchTouches(changes)) && PlainTouches(BatchTouches(changes))
  {
    forall x | x in BatchTouches(changes) ensures PlainRow(x.row) {
      var c := TouchHasChange(changes, Upto(|changes|), x);
      if x.row.kind == Upsert {
        TakenIsPlain(changes, c);
      }
    }
    forall x, y | x in BatchTouches(changes) && y in BatchTouches(changes) && x.row.table == y.row.table && x.row.kind == y.row.kind == Upsert
      ensures x.row.values.Keys == y.row.values.Keys
    {
      var c := TouchHasChange(changes, Upto(|changes|), x);
      var d := TouchHasChange(changes, Upto(|changes|), y);
      TakenWritesAlike(changes, c, d);
    }
  }

  // Where no table is bound, the plan is the rows way's rows in their order.
  lemma {:induction false} ColumnsAreRows(changes: seq<Change>, tables: seq<TableNet>)
    requires Keyed(changes) && AllTaken(changes) && Collapses(changes, tables)
    ensures RowList(MergeAll(RowLists(tables))) == Collapsed(changes)
  {
    MergedIsFirstTouchOrder(changes, tables);
    TakenIsOneShape(changes);
    FoldIsNet(BatchTouches(changes));
  }

  // ---- Where tables are bound: one run a shape, the deletes first

  datatype Shape = Shape(delete: bool, table: string, key: set<string>, names: set<string>)

  function ShapeOf(row: NetRow): Shape {
    Shape(row.kind == Delete, row.table, row.key.Keys, row.key.Keys + row.values.Keys)
  }

  function Shapes(rows: seq<NetRow>): (ss: seq<Shape>)
    ensures |ss| == |rows| && forall i :: 0 <= i < |rows| ==> ss[i] == ShapeOf(rows[i])
  {
    seq(|rows|, i requires 0 <= i < |rows| => ShapeOf(rows[i]))
  }

  function WithShape(rows: seq<NetRow>, s: Shape): seq<NetRow> {
    if rows == [] then [] else (if ShapeOf(rows[0]) == s then [rows[0]] else []) + WithShape(rows[1..], s)
  }

  // The rows of each shape of one kind, shapes in the order they first come.
  function RunsOf(rows: seq<NetRow>, shapes: seq<Shape>, delete: bool): seq<seq<NetRow>> {
    if shapes == [] then []
    else (if shapes[0].delete == delete then [WithShape(rows, shapes[0])] else []) + RunsOf(rows, shapes[1..], delete)
  }

  function Joined(runs: seq<seq<NetRow>>): seq<NetRow> {
    if runs == [] then [] else runs[0] + Joined(runs[1..])
  }

  // The bound changes' rows, each change collapsed alone.
  function BoundAlone(bound: seq<Change>): seq<NetRow>
    requires Keyed(bound)
  {
    if bound == [] then []
    else BoundAlone(bound[..|bound| - 1]) + Collapsed([bound[|bound| - 1]])
  }

  // The rows way's rows for a batch, in the order it writes them.
  function RowsWayRows(changes: seq<Change>, ordered: Option<set<string>>): seq<NetRow>
    requires Keyed(changes)
  {
    if ordered.None? then Collapsed(changes)
    else
      var free := Collapsed(Part(changes, ordered.value, false));
      var shapes := FirstTouched(Shapes(free));
      BoundAlone(Part(changes, ordered.value, true)) + (Joined(RunsOf(free, shapes, true)) + Joined(RunsOf(free, shapes, false)))
  }

  // ---- Groups in order of their first rows

  ghost predicate GroupsAscend(gs: seq<Group>) {
    forall i, j :: 0 <= i < j < |gs| ==> FirstNumber(gs[i]) < FirstNumber(gs[j])
  }

  lemma {:induction false} InsertMembers(g: Group, gs: seq<Group>, x: Group)
    ensures x in Insert(g, gs) <==> x == g || x in gs
  {
    if gs == [] || FirstNumber(g) <= FirstNumber(gs[0]) {
    } else {
      InsertMembers(g, gs[1..], x);
    }
  }

  lemma {:induction false} InsertAscends(g: Group, gs: seq<Group>)
    requires GroupsAscend(gs) && forall x :: x in gs ==> FirstNumber(x) != FirstNumber(g)
    ensures GroupsAscend(Insert(g, gs))
  {
    if gs == [] {
    } else if FirstNumber(g) <= FirstNumber(gs[0]) {
      assert gs[0] in gs;
    } else {
      InsertAscends(g, gs[1..]);
      var rest := Insert(g, gs[1..]);
      forall i | 0 <= i < |rest| ensures FirstNumber(gs[0]) < FirstNumber(rest[i]) {
        InsertMembers(g, gs[1..], rest[i]);
        assert rest[i] in rest;
        if rest[i] in gs[1..] {
          var j :| 0 <= j < |gs[1..]| && gs[1..][j] == rest[i];
          assert gs[j + 1] == rest[i];
        }
      }
    }
  }

  ghost predicate FirstNumbersDiffer(gs: seq<Group>) {
    forall i, j :: 0 <= i < j < |gs| ==> FirstNumber(gs[i]) != FirstNumber(gs[j])
  }

  lemma {:induction false} RankedMembers(gs: seq<Group>, x: Group)
    ensures x in Ranked(gs) <==> x in gs
  {
    if gs != [] {
      RankedMembers(gs[1..], x);
      InsertMembers(gs[0], Ranked(gs[1..]), x);
    }
  }

  lemma {:induction false} RankedAscends(gs: seq<Group>)
    requires FirstNumbersDiffer(gs)
    ensures GroupsAscend(Ranked(gs))
  {
    if gs != [] {
      RankedAscends(gs[1..]);
      forall x | x in Ranked(gs[1..]) ensures FirstNumber(x) != FirstNumber(gs[0]) {
        RankedMembers(gs[1..], x);
        var i :| 0 <= i < |gs[1..]| && gs[1..][i] == x;
        assert gs[i + 1] == x;
      }
      InsertAscends(gs[0], Ranked(gs[1..]));
    }
  }

  lemma {:induction false} SomeGroup(gs: seq<Group>)
    requires gs != []
    ensures exists g :: g in gs
  {
    assert gs[0] in gs;
  }

  lemma {:induction false} SameGroupsSameOrder(a: seq<Group>, b: seq<Group>)
    requires GroupsAscend(a) && GroupsAscend(b) && forall g :: g in a <==> g in b
    ensures a == b
  {
    if a == [] {
      if b != [] { SomeGroup(b); }
    } else {
      assert a[0] in b;
      assert b != [] && b[0] in a;
      var i :| 0 <= i < |b| && b[i] == a[0];
      var j :| 0 <= j < |a| && a[j] == b[0];
      assert a[0] == b[0];
      forall g ensures g in a[1..] <==> g in b[1..] {
        if g in a[1..] {
          var k :| 0 <= k < |a[1..]| && a[1..][k] == g;
          assert a[k + 1] == g && g in b && g != b[0];
        }
        if g in b[1..] {
          var k :| 0 <= k < |b[1..]| && b[1..][k] == g;
          assert b[k + 1] == g && g in a && g != a[0];
        }
      }
      SameGroupsSameOrder(a[1..], b[1..]);
    }
  }

  // ---- A run of a shape is a table's run of a kind

  // One table's rows of one kind.
  function RunOf(net: seq<Touch>, table: string, kind: Kind): seq<Touch> {
    OfKind(InTable(net, table), kind)
  }

  lemma {:induction false} RunHas(net: seq<Touch>, table: string, kind: Kind, x: Touch)
    ensures x in RunOf(net, table, kind) <==> x in net && x.row.table == table && x.row.kind == kind
  {
    OfKindHas(InTable(net, table), kind, x);
    InTableHas(net, table, x);
  }

  lemma {:induction false} RunFirst(net: seq<Touch>, table: string, kind: Kind, i: nat)
    requires i < |net| && net[i].row.table == table && net[i].row.kind == kind
    requires forall j :: 0 <= j < i ==> net[j].row.table != table || net[j].row.kind != kind
    ensures RunOf(net, table, kind) != [] && RunOf(net, table, kind)[0] == net[i]
  {
    if i > 0 {
      RunFirst(net[1..], table, kind, i - 1);
      var here := if net[0].row.table == table then [net[0]] else [];
      if here != [] {
        assert (here + InTable(net[1..], table))[1..] == InTable(net[1..], table);
      } else {
        assert here + InTable(net[1..], table) == InTable(net[1..], table);
      }
    }
  }

  ghost predicate OneShapeAKind(net: seq<Touch>) {
    forall x, y :: x in net && y in net && x.row.table == y.row.table && x.row.kind == y.row.kind ==> ShapeOf(x.row) == ShapeOf(y.row)
  }

  lemma {:induction false} RunIsWithShape(net: seq<Touch>, s: Shape, kind: Kind)
    requires forall x :: x in net ==> (ShapeOf(x.row) == s <==> x.row.table == s.table && x.row.kind == kind)
    ensures WithShape(RowList(net), s) == RowList(RunOf(net, s.table, kind))
  {
    if net != [] {
      assert RowList(net)[1..] == RowList(net[1..]);
      RunIsWithShape(net[1..], s, kind);
      assert net[0] in net;
      var here := if net[0].row.table == s.table then [net[0]] else [];
      if here != [] {
        assert (here + InTable(net[1..], s.table))[1..] == InTable(net[1..], s.table);
      } else {
        assert here + InTable(net[1..], s.table) == InTable(net[1..], s.table);
      }
    }
  }

  // The groups the shapes of one kind make.
  function ShapeGroups(net: seq<Touch>, shapes: seq<Shape>, kind: Kind): seq<Group> {
    if shapes == [] then []
    else (if shapes[0].delete == (kind == Delete) then [Group(shapes[0].table, kind, RunOf(net, shapes[0].table, kind))] else [])
         + ShapeGroups(net, shapes[1..], kind)
  }

  lemma {:induction false} ShapeTellsRun(net: seq<Touch>, s: Shape, kind: Kind)
    requires OneShapeAKind(net) && s in Shapes(RowList(net)) && s.delete == (kind == Delete)
    ensures WithShape(RowList(net), s) == RowList(RunOf(net, s.table, kind))
  {
    var i :| 0 <= i < |net| && ShapeOf(net[i].row) == s;
    assert net[i] in net;
    RunIsWithShape(net, s, kind);
  }

  lemma {:induction false} JoinedCons(run: seq<NetRow>, rest: seq<seq<NetRow>>)
    ensures Joined([run] + rest) == run + Joined(rest)
  {
    assert ([run] + rest)[1..] == rest;
  }

  lemma {:induction false} RowListFlatCons(g: Group, rest: seq<Group>)
    ensures RowList(Flat([g] + rest)) == RowList(g.rows) + RowList(Flat(rest))
  {
    assert ([g] + rest)[1..] == rest;
  }

  lemma {:induction false} RunsAreGroups(net: seq<Touch>, shapes: seq<Shape>, kind: Kind)
    requires OneShapeAKind(net) && forall s :: s in shapes ==> s in Shapes(RowList(net))
    ensures Joined(RunsOf(RowList(net), shapes, kind == Delete)) == RowList(Flat(ShapeGroups(net, shapes, kind)))
  {
    if shapes != [] {
      RunsAreGroups(net, shapes[1..], kind);
      var s := shapes[0];
      if s.delete == (kind == Delete) {
        ShapeTellsRun(net, s, kind);
        JoinedCons(WithShape(RowList(net), s), RunsOf(RowList(net), shapes[1..], kind == Delete));
        RowListFlatCons(Group(s.table, kind, RunOf(net, s.table, kind)), ShapeGroups(net, shapes[1..], kind));
      } else {
        assert RunsOf(RowList(net), shapes, kind == Delete) == RunsOf(RowList(net), shapes[1..], kind == Delete);
        assert ShapeGroups(net, shapes, kind) == ShapeGroups(net, shapes[1..], kind);
      }
    }
  }

  lemma {:induction false} ShapeGroupsHas(net: seq<Touch>, shapes: seq<Shape>, kind: Kind, g: Group)
    ensures g in ShapeGroups(net, shapes, kind)
       <==> exists s :: s in shapes && s.delete == (kind == Delete) && g == Group(s.table, kind, RunOf(net, s.table, kind))
  {
    if shapes != [] {
      ShapeGroupsHas(net, shapes[1..], kind, g);
      assert forall s :: s in shapes <==> s == shapes[0] || s in shapes[1..];
    }
  }

  lemma {:induction false} KindGroupsMembers(net: seq<Touch>, tables: seq<TableNet>, kind: Kind, g: Group)
    requires forall i :: 0 <= i < |tables| ==> tables[i].rows == InTable(net, tables[i].table)
    ensures g in KindGroups(tables, kind)
       <==> g.kind == kind && g.rows != [] && g.rows == RunOf(net, g.table, kind) && exists i :: 0 <= i < |tables| && tables[i].table == g.table
  {
    if tables != [] {
      KindGroupsMembers(net, tables[1..], kind, g);
      if i :| 0 <= i < |tables[1..]| && tables[1..][i].table == g.table {
        assert tables[i + 1].table == g.table;
      }
      if i :| 0 <= i < |tables| && tables[i].table == g.table {
        assert i > 0 ==> tables[1..][i - 1].table == g.table;
      }
    }
  }

  // First numbers tell groups of one kind apart.
  lemma {:induction false} GroupsTold(net: seq<Touch>, kind: Kind, a: Group, b: Group)
    requires Ascending(net) && a.rows == RunOf(net, a.table, kind) != [] && b.rows == RunOf(net, b.table, kind) != []
    requires a.table != b.table
    ensures FirstNumber(a) != FirstNumber(b)
  {
    assert a.rows[0] in a.rows && b.rows[0] in b.rows;
    RunHas(net, a.table, kind, a.rows[0]);
    RunHas(net, b.table, kind, b.rows[0]);
    if FirstNumber(a) == FirstNumber(b) {
      OneNumberOneTouch(net, a.rows[0], b.rows[0]);
    }
  }

  lemma {:induction false} KindGroupsDiffer(net: seq<Touch>, tables: seq<TableNet>, kind: Kind)
    requires Ascending(net)
    requires forall i :: 0 <= i < |tables| ==> tables[i].rows == InTable(net, tables[i].table)
    requires forall i, j :: 0 <= i < j < |tables| ==> tables[i].table != tables[j].table
    ensures FirstNumbersDiffer(KindGroups(tables, kind))
  {
    if tables != [] {
      KindGroupsDiffer(net, tables[1..], kind);
      var rest := KindGroups(tables[1..], kind);
      var mine := Group(tables[0].table, kind, RunOf(net, tables[0].table, kind));
      if mine.rows != [] {
        forall j | 0 <= j < |rest| ensures FirstNumber(mine) != FirstNumber(rest[j]) {
          assert rest[j] in rest;
          KindGroupsMembers(net, tables[1..], kind, rest[j]);
          var i :| 0 <= i < |tables[1..]| && tables[1..][i].table == rest[j].table;
          assert tables[i + 1].table == rest[j].table;
          GroupsTold(net, kind, mine, rest[j]);
        }
        assert KindGroups(tables, kind) == [mine] + rest;
      } else {
        assert KindGroups(tables, kind) == rest;
      }
    }
  }

  // Where a shape comes first is where its run begins.
  lemma {:induction false} ShapeFirst(net: seq<Touch>, s: Shape, kind: Kind)
    requires OneShapeAKind(net) && s in Shapes(RowList(net)) && s.delete == (kind == Delete)
    ensures FirstAt(Shapes(RowList(net)))[s] < |net| && RunOf(net, s.table, kind) != []
    ensures RunOf(net, s.table, kind)[0] == net[FirstAt(Shapes(RowList(net)))[s]]
  {
    var ss := Shapes(RowList(net));
    var i := FirstAt(ss)[s];
    assert IsFirst(ss, 0, s, i);
    assert net[i] in net;
    forall j | 0 <= j < i ensures net[j].row.table != s.table || net[j].row.kind != kind {
      assert net[j] in net && ss[j] != s;
    }
    RunFirst(net, s.table, kind, i);
  }

  ghost predicate InOrder(net: seq<Touch>, shapes: seq<Shape>) {
    var ss := Shapes(RowList(net));
    (forall s :: s in shapes ==> s in ss)
    && forall i, j :: 0 <= i < j < |shapes| ==> shapes[i] in ss && shapes[j] in ss && FirstAt(ss)[shapes[i]] < FirstAt(ss)[shapes[j]]
  }

  lemma {:induction false} ShapeBefore(net: seq<Touch>, shapes: seq<Shape>, kind: Kind, i: nat, j: nat)
    requires Ascending(net) && OneShapeAKind(net) && InOrder(net, shapes) && i < j < |shapes|
    requires shapes[i].delete == shapes[j].delete == (kind == Delete)
    ensures var a, b := RunOf(net, shapes[i].table, kind), RunOf(net, shapes[j].table, kind);
            a != [] && b != [] && a[0].number < b[0].number
  {
    assert shapes[i] in shapes && shapes[j] in shapes;
    var ss := Shapes(RowList(net));
    ShapeFirst(net, shapes[i], kind);
    ShapeFirst(net, shapes[j], kind);
    assert FirstAt(ss)[shapes[i]] < FirstAt(ss)[shapes[j]];
  }

  lemma {:induction false} ShapeGroupBefore(net: seq<Touch>, shapes: seq<Shape>, kind: Kind, g: Group)
    requires Ascending(net) && OneShapeAKind(net) && shapes != [] && InOrder(net, shapes)
    requires shapes[0].delete == (kind == Delete) && g in ShapeGroups(net, shapes[1..], kind)
    ensures FirstNumber(Group(shapes[0].table, kind, RunOf(net, shapes[0].table, kind))) < FirstNumber(g)
  {
    var k := ShapeGroupAt(net, shapes[1..], kind, g);
    assert shapes[1..][k] == shapes[k + 1];
    ShapeBefore(net, shapes, kind, 0, k + 1);
  }

  lemma {:induction false} ShapeGroupAt(net: seq<Touch>, shapes: seq<Shape>, kind: Kind, g: Group) returns (k: nat)
    requires g in ShapeGroups(net, shapes, kind)
    ensures k < |shapes| && shapes[k].delete == (kind == Delete) && g == Group(shapes[k].table, kind, RunOf(net, shapes[k].table, kind))
  {
    ShapeGroupsHas(net, shapes, kind, g);
    var u :| u in shapes && u.delete == (kind == Delete) && g == Group(u.table, kind, RunOf(net, u.table, kind));
    k :| 0 <= k < |shapes| && shapes[k] == u;
  }

  lemma {:induction false} InOrderTail(net: seq<Touch>, shapes: seq<Shape>)
    requires shapes != [] && InOrder(net, shapes)
    ensures InOrder(net, shapes[1..])
  {
    assert forall i :: 0 <= i < |shapes[1..]| ==> shapes[1..][i] == shapes[i + 1];
    assert forall s :: s in shapes[1..] ==> s in shapes;
  }

  lemma {:induction false} GroupsAscendCons(g: Group, gs: seq<Group>)
    requires GroupsAscend(gs) && forall x :: x in gs ==> FirstNumber(g) < FirstNumber(x)
    ensures GroupsAscend([g] + gs)
  {
    assert forall i :: 0 <= i < |gs| ==> gs[i] in gs;
  }

  lemma {:induction false} ShapeGroupsAscend(net: seq<Touch>, shapes: seq<Shape>, kind: Kind)
    requires Ascending(net) && OneShapeAKind(net) && InOrder(net, shapes)
    ensures GroupsAscend(ShapeGroups(net, shapes, kind))
  {
    if shapes != [] {
      InOrderTail(net, shapes);
      ShapeGroupsAscend(net, shapes[1..], kind);
      var rest := ShapeGroups(net, shapes[1..], kind);
      if shapes[0].delete == (kind == Delete) {
        forall g | g in rest ensures FirstNumber(Group(shapes[0].table, kind, RunOf(net, shapes[0].table, kind))) < FirstNumber(g) {
          ShapeGroupBefore(net, shapes, kind, g);
        }
        GroupsAscendCons(Group(shapes[0].table, kind, RunOf(net, shapes[0].table, kind)), rest);
      } else {
        assert ShapeGroups(net, shapes, kind) == rest;
      }
    }
  }

  // Ranking a collapsed batch's tables by first row is taking its shapes in
  // the order they come.
  lemma {:induction false} RankedIsShapeOrder(net: seq<Touch>, named: seq<string>, tables: seq<TableNet>, kind: Kind)
    requires Ascending(net) && OneShapeAKind(net) && Distinct(named) && |tables| == |named|
    requires forall i :: 0 <= i < |named| ==> tables[i].table == named[i] && tables[i].rows == InTable(net, named[i])
    requires forall x :: x in net ==> x.row.table in named
    ensures Ranked(KindGroups(tables, kind)) == ShapeGroups(net, FirstTouched(Shapes(RowList(net))), kind)
  {
    var ss := Shapes(RowList(net));
    var shapes := FirstTouched(ss);
    forall i, j | 0 <= i < j < |shapes| ensures shapes[i] in ss && shapes[j] in ss && FirstAt(ss)[shapes[i]] < FirstAt(ss)[shapes[j]] {
      FirstTouchedInOrder(ss, i, j);
    }
    ShapeGroupsAscend(net, shapes, kind);
    KindGroupsDiffer(net, tables, kind);
    RankedAscends(KindGroups(tables, kind));
    forall g ensures g in Ranked(KindGroups(tables, kind)) <==> g in ShapeGroups(net, shapes, kind) {
      RankedMembers(KindGroups(tables, kind), g);
      SameGroup(net, named, tables, kind, g);
    }
    SameGroupsSameOrder(Ranked(KindGroups(tables, kind)), ShapeGroups(net, shapes, kind));
  }

  lemma {:induction false} SameGroup(net: seq<Touch>, named: seq<string>, tables: seq<TableNet>, kind: Kind, g: Group)
    requires OneShapeAKind(net) && |tables| == |named|
    requires forall i :: 0 <= i < |named| ==> tables[i].table == named[i] && tables[i].rows == InTable(net, named[i])
    requires forall x :: x in net ==> x.row.table in named
    ensures g in KindGroups(tables, kind) <==> g in ShapeGroups(net, FirstTouched(Shapes(RowList(net))), kind)
  {
    var ss := Shapes(RowList(net));
    var shapes := FirstTouched(ss);
    KindGroupsMembers(net, tables, kind, g);
    ShapeGroupsHas(net, shapes, kind, g);
    if g in KindGroups(tables, kind) {
      var x := g.rows[0];
      assert x in g.rows;
      RunHas(net, g.table, kind, x);
      var i :| 0 <= i < |net| && net[i] == x;
      assert ss[i] == ShapeOf(x.row) && ss[i] in shapes;
    }
    if g in ShapeGroups(net, shapes, kind) {
      var s :| s in shapes && s.delete == (kind == Delete) && g == Group(s.table, kind, RunOf(net, s.table, kind));
      ShapeFirst(net, s, kind);
      var x := net[FirstAt(ss)[s]];
      assert IsFirst(ss, 0, s, FirstAt(ss)[s]) && x in net && ShapeOf(x.row) == s;
      var i :| 0 <= i < |named| && named[i] == x.row.table;
      assert tables[i].table == g.table;
    }
  }

  // ---- The bound changes, one by one

  lemma {:induction false} BoundAloneIsTouches(bound: seq<Change>, at: seq<nat>)
    requires Keyed(bound) && |at| == |bound|
    ensures BoundAlone(bound) == RowList(Touches(bound, at))
  {
    if bound != [] {
      var n := |bound| - 1;
      BoundAloneIsTouches(bound[..n], at[..n]);
      OneAlone(bound[n], at[n]);
      assert RowList(Touches(bound, at)) == RowList(Touches(bound[..n], at[..n])) + RowList(TouchesOf(bound[n], at[n]));
    }
  }

  lemma {:induction false} FoldOne(a: NetRow)
    ensures FoldRows([a]) == [a]
  {
    assert [a][..0] == [];
  }

  lemma {:induction false} FoldTwo(a: NetRow, b: NetRow)
    requires PlaceOf(a) != PlaceOf(b)
    ensures FoldRows([a, b]) == [a, b]
  {
    var two := [a, b];
    assert two[..|two| - 1] == [a] && [a][1..] == [];
    FoldOne(a);
    assert FoldRows(two) == TouchRow(FoldRows(two[..|two| - 1]), b);
    assert TouchRow([a], b) == [a] + TouchRow([a][1..], b);
  }

  lemma {:induction false} MovedPlacesDiffer(c: Change)
    requires c.key.Some? && Moves(c)
    ensures Arrival(c) != c.key.value.at
  {
    var k :| k in c.key.value.at && k in Values(c).at && !Same(Values(c).at[k], c.key.value.at[k]);
    assert Arrival(c)[k] != c.key.value.at[k];
  }

  // One change collapsed alone is its touches: a moved key's two places differ.
  lemma {:induction false} OneAlone(c: Change, at: nat)
    requires c.key.Some?
    ensures Keyed([c]) && Collapsed([c]) == RowList(TouchesOf(c, at))
  {
    OneTouched(c);
    FoldsToItself(c);
    assert RowList(TouchesOf(c, 0)) == RowList(TouchesOf(c, at));
  }

  lemma {:induction false} FoldsToItself(c: Change)
    requires c.key.Some?
    ensures FoldRows(RowList(TouchesOf(c, 0))) == RowList(TouchesOf(c, 0))
  {
    var rows := RowList(TouchesOf(c, 0));
    if Writes(c) && Moves(c) {
      MovedPlacesDiffer(c);
      assert rows == [rows[0], rows[1]];
      FoldTwo(rows[0], rows[1]);
    } else {
      assert rows == [rows[0]];
      FoldOne(rows[0]);
    }
  }

  // ---- The columns way leaves exactly what the rows way leaves

  lemma {:induction false} TakenIsOneShapeAKind(changes: seq<Change>)
    requires Keyed(changes) && AllTaken(changes)
    ensures OneShapeAKind(Net(BatchTouches(changes)))
  {
    var ts := BatchTouches(changes);
    forall x, y | x in Net(ts) && y in Net(ts) && x.row.table == y.row.table && x.row.kind == y.row.kind
      ensures ShapeOf(x.row) == ShapeOf(y.row)
    {
      NetRowIsTouched(ts, x);
      NetRowIsTouched(ts, y);
      var u :| u in ts && u.row == x.row;
      var v :| v in ts && v.row == y.row;
      var c := TouchHasChange(changes, Upto(|changes|), u);
      var d := TouchHasChange(changes, Upto(|changes|), v);
      TakenWritesAlike(changes, c, d);
    }
  }

  lemma {:induction false} GroupsAreRuns(changes: seq<Change>, tables: seq<TableNet>)
    requires Keyed(changes) && AllTaken(changes) && Collapses(changes, tables)
    ensures var free := Collapsed(changes);
            var shapes := FirstTouched(Shapes(free));
            RowList(Flat(GroupsOf(tables))) == Joined(RunsOf(free, shapes, true)) + Joined(RunsOf(free, shapes, false))
  {
    var net, named := Net(BatchTouches(changes)), FirstTouched(TablesOf(changes));
    TakenIsOneShape(changes);
    FoldIsNet(BatchTouches(changes));
    TakenIsOneShapeAKind(changes);
    MergedIsFirstTouchOrder(changes, tables);
    forall x | x in net ensures x.row.table in named {
      NetRowIsTouched(BatchTouches(changes), x);
      TouchedTableIsNamed(changes, Upto(|changes|), x.row);
    }
    RankedIsShapeOrder(net, named, tables, Delete);
    RankedIsShapeOrder(net, named, tables, Upsert);
    var shapes := FirstTouched(Shapes(RowList(net)));
    RunsAreGroups(net, shapes, Delete);
    RunsAreGroups(net, shapes, Upsert);
    FlatOfTwo(Ranked(KindGroups(tables, Delete)), Ranked(KindGroups(tables, Upsert)));
  }

  lemma {:induction false} FlatOfTwo(a: seq<Group>, b: seq<Group>)
    ensures RowList(Flat(a + b)) == RowList(Flat(a)) + RowList(Flat(b))
  {
    if a == [] {
      assert a + b == b;
    } else {
      assert a + b == [a[0]] + (a[1..] + b) && a == [a[0]] + a[1..];
      FlatOfTwo(a[1..], b);
      RowListFlatCons(a[0], a[1..] + b);
      RowListFlatCons(a[0], a[1..]);
    }
  }

  lemma {:induction false} UngroupedIsTheRowsWay(changes: seq<Change>, plan: Plan)
    requires Keyed(changes) && IsPlan(changes, None, plan) && AllTaken(Part(changes, {}, false))
    ensures PlanRows(plan) == Collapsed(changes)
  {
    PartOfNone(changes);
    TakenIsOneShape(changes);
    FoldIsNet(BatchTouches(changes));
  }

  lemma {:induction false} GroupedIsTheRowsWay(changes: seq<Change>, ordered: set<string>, plan: Plan)
    requires Keyed(changes) && IsPlan(changes, Some(ordered), plan) && AllTaken(Part(changes, ordered, false))
    ensures PlanRows(plan) == RowsWayRows(changes, Some(ordered))
  {
    var tables := TablesOfPlan(changes, ordered, plan);
    GroupsAreRuns(Part(changes, ordered, false), tables);
    BoundThenRuns(changes, ordered, plan, GroupsOf(tables));
  }

  lemma {:induction false} TablesOfPlan(changes: seq<Change>, ordered: set<string>, plan: Plan) returns (tables: seq<TableNet>)
    requires Keyed(changes) && IsPlan(changes, Some(ordered), plan)
    ensures plan.bound == BoundAlone(Part(changes, ordered, true))
    ensures Collapses(Part(changes, ordered, false), tables) && plan.rows == Grouped(GroupsOf(tables))
  {
    var bound := Part(changes, OrderedTables(Some(ordered)), true);
    BoundAloneIsTouches(bound, Upto(|bound|));
    tables :| Collapses(Part(changes, ordered, false), tables) && plan.rows == Grouped(GroupsOf(tables));
  }

  lemma {:induction false} BoundThenRuns(changes: seq<Change>, ordered: set<string>, plan: Plan, groups: seq<Group>)
    requires Keyed(changes) && plan.rows == Grouped(groups) && plan.bound == BoundAlone(Part(changes, ordered, true))
    requires var free := Collapsed(Part(changes, ordered, false));
             var shapes := FirstTouched(Shapes(free));
             RowList(Flat(groups)) == Joined(RunsOf(free, shapes, true)) + Joined(RunsOf(free, shapes, false))
    ensures PlanRows(plan) == RowsWayRows(changes, Some(ordered))
  {
  }

  // For every batch the columns way takes, bound tables or none, its rows are
  // the rows way's, one for one and in the same order.
  lemma {:induction false} PlanIsTheRowsWay(changes: seq<Change>, ordered: Option<set<string>>, plan: Plan)
    requires Keyed(changes) && IsPlan(changes, ordered, plan)
    requires AllTaken(Part(changes, OrderedTables(ordered), false))
    ensures PlanRows(plan) == RowsWayRows(changes, ordered)
  {
    if ordered.None? {
      UngroupedIsTheRowsWay(changes, plan);
    } else {
      GroupedIsTheRowsWay(changes, ordered.value, plan);
    }
  }

  lemma {:induction false} PartOfNone(changes: seq<Change>)
    ensures Part(changes, {}, false) == changes && Part(changes, {}, true) == []
  {
    if changes != [] {
      var less, c := changes[..|changes| - 1], changes[|changes| - 1];
      PartOfNone(less);
      assert changes == less + [c];
    }
  }

  // ---- Why additions are left to the rows way

  // What a value written leaves where the row holds the number `was`.
  function Land(was: Cell, v: Cell): Cell {
    match v
    case Added(more, _) => if Moved(was, more).Some? then Moved(was, more).value else was
    case Kept(_) => was
    case _ => v
  }

  // Two values merged leave a number as one after the other would, exactly
  // unless the first adds to it and the second keeps it.
  lemma {:induction false} MergedLandsExactly(n: int, was: Cell, v: Cell)
    requires was.Int? || was.Added? || was.Kept?
    ensures Land(Land(Int(n), was), v) == Land(Int(n), MergeCell(Some(was), v))
       <==> !(was.Added? && was.more != 0 && v.Kept?)
  {
  }

  const ONE: Record := Dict(["id"], map["id" := Int(1)])

  function Counts(more: int, to: Cell): Change {
    var values: Record := Dict(["n"], map["n" := Added(more, to)]);
    Change("t", "update", Some(ONE), Some(values))
  }

  function CountedRow(more: int, to: Cell): NetRow { NetRow("t", Upsert, ONE.at, map["n" := Added(more, to)]) }

  // Two additions to one counter: the columns refuse them; the rows way writes
  // both as one, where the last alone would be the second only.
  lemma {:induction false} AdditionsAreRefused(a: int, b: int, x: Cell, y: Cell)
    ensures var both := [Counts(a, x), Counts(b, y)];
            && Keyed(both) && Trouble(both) == Some(AddsOrKeeps)
            && Collapsed(both) == [CountedRow(a + b, y)]
            && RowList(Net(BatchTouches(both))) == [CountedRow(b, y)]
  {
    CountsRefused(a, b, x, y);
    CountsTouched(a, b, x, y);
    var s, t := Touch(0, CountedRow(a, x)), Touch(2, CountedRow(b, y));
    FoldSame(s, t);
    MergesAdditions(a, b, x, y);
    NetSame(s, t);
  }

  lemma {:induction false} CountsRefused(a: int, b: int, x: Cell, y: Cell)
    ensures Keyed([Counts(a, x), Counts(b, y)]) && Trouble([Counts(a, x), Counts(b, y)]) == Some(AddsOrKeeps)
  {
    var c, d := Counts(a, x), Counts(b, y);
    var both := [c, d];
    assert c in both && Writing(c, "n", Added(a, x));
    assert AddsOrKeepsOne(both);
    assert forall e :: e in both ==> e.op == "update" && e.key == Some(ONE) && ONE.cols != [] && Values(e).cols == ["n"];
    assert !Stranger(both) && !Keyless(both) && !Apart(both) && !Differ(both);
  }

  lemma {:induction false} MergesAdditions(a: int, b: int, x: Cell, y: Cell)
    ensures MergeRow(CountedRow(a, x), CountedRow(b, y)) == CountedRow(a + b, y)
  {
    assert MergeValues(map["n" := Added(a, x)], map["n" := Added(b, y)]) == map["n" := Added(a + b, y)];
  }

  lemma {:induction false} CountsTouched(a: int, b: int, x: Cell, y: Cell)
    ensures BatchTouches([Counts(a, x), Counts(b, y)]) == [Touch(0, CountedRow(a, x)), Touch(2, CountedRow(b, y))]
  {
    TwoTouched(Counts(a, x), Counts(b, y));
    CountTouched(a, x, 0);
    CountTouched(b, y, 1);
  }

  lemma {:induction false} CountTouched(more: int, to: Cell, at: nat)
    ensures TouchesOf(Counts(more, to), at) == [Touch(2 * at, CountedRow(more, to))]
  {
  }

  lemma {:induction false} FoldSame(a: Touch, b: Touch)
    requires PlaceOf(a.row) == PlaceOf(b.row)
    ensures FoldRows(RowList([a, b])) == [MergeRow(a.row, b.row)]
  {
    var rows := RowList([a, b]);
    assert rows == [a.row, b.row] && rows[..1] == [a.row] && [a.row][1..] == [];
    FoldOne(a.row);
  }

  lemma {:induction false} NetSame(a: Touch, b: Touch)
    requires PlaceOf(a.row) == PlaceOf(b.row)
    ensures RowList(Net([a, b])) == [b.row]
  {
    assert [a, b][..1] == [a] && [a][..0] == [] && [a][1..] == [];
    assert Net([a]) == Settle(Net([a][..0]), a) == [a];
  }
}
