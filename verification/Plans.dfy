// A batch's plan: the bound tables change by change, then each loose
// table's net, by first touch or in runs by kind.
module Plans {
  import opened LastEvent
  import opened Occurrences
  import opened NetRows
  import opened Changes
  import opened ApplyWay
  import opened Refusals

  // ---- Splitting a batch into tables

  // Every table of the batch in the order they first come, with the
  // positions of its changes, ascending.
  function Split(tables: seq<string>): (parts: seq<(string, seq<nat>)>)
    ensures |parts| == |FirstTouched(tables)|
    ensures forall i :: 0 <= i < |parts| ==> parts[i] == (FirstTouched(tables)[i], Positions(tables, FirstTouched(tables)[i]))
  {
    var named := FirstTouched(tables);
    seq(|named|, i requires 0 <= i < |named| => (named[i], Positions(tables, named[i])))
  }

  lemma {:induction false} AllPositions(tables: seq<string>, t: string)
    requires forall i :: 0 <= i < |tables| ==> tables[i] == t
    ensures Positions(tables, t) == Upto(|tables|)
  {
    if tables != [] {
      AllPositions(tables[..|tables| - 1], t);
    }
  }

  // One table, a few, or many: three ways to the same split.
  method SplitTables(tables: seq<string>) returns (parts: seq<(string, seq<nat>)>)
    ensures parts == Split(tables)
  {
    var named := FirstTouched(tables);
    if |named| == 1 {
      forall i | 0 <= i < |tables| ensures tables[i] == named[0] {
        assert tables[i] in named;
      }
      AllPositions(tables, named[0]);
      parts := [(named[0], Upto(|tables|))];
    } else if |named| <= SPLIT_PASSES {
      parts := seq(|named|, i requires 0 <= i < |named| => (named[i], Positions(tables, named[i])));
    } else {
      parts := SortOnce(tables);
    }
  }

  ghost predicate Sorted(tables: seq<string>, order: seq<string>, at: map<string, seq<nat>>) {
    && order == FirstTouched(tables)
    && (forall t :: t in at <==> t in tables)
    && (forall t :: t in at ==> at[t] == Positions(tables, t))
  }

  // Under `t`, once the change after `tables` is sorted under `x`.
  lemma {:induction false} SortedAt(tables: seq<string>, x: string, at: map<string, seq<nat>>, now: map<string, seq<nat>>, t: string)
    requires now == at[x := (if x in at then at[x] else []) + [|tables|]]
    requires (t in at <==> t in tables) && (t in at ==> at[t] == Positions(tables, t))
    ensures (t in now <==> t in tables + [x]) && (t in now ==> now[t] == Positions(tables + [x], t))
  {
    PositionsGrow(tables, t, x);
    NoPositions(tables, t);
  }

  lemma {:induction false} SortedWith(tables: seq<string>, order: seq<string>, at: map<string, seq<nat>>)
    requires order == FirstTouched(tables)
    requires forall t :: (t in at <==> t in tables) && (t in at ==> at[t] == Positions(tables, t))
    ensures Sorted(tables, order, at)
  {
  }

  lemma {:induction false} SortedOneMore(tables: seq<string>, x: string, order: seq<string>, at: map<string, seq<nat>>)
    requires Sorted(tables, order, at)
    ensures Sorted(tables + [x], if x in at then order else order + [x], at[x := (if x in at then at[x] else []) + [|tables|]])
  {
    var more, now := tables + [x], at[x := (if x in at then at[x] else []) + [|tables|]];
    FirstTouchedGrows(tables, x);
    forall t ensures (t in now <==> t in more) && (t in now ==> now[t] == Positions(more, t)) {
      SortedAt(tables, x, at, now, t);
    }
    SortedWith(more, if x in at then order else order + [x], now);
  }

  lemma {:induction false} SortedIsSplit(tables: seq<string>, order: seq<string>, at: map<string, seq<nat>>, parts: seq<(string, seq<nat>)>)
    requires Sorted(tables, order, at) && |parts| == |order|
    requires forall i :: 0 <= i < |order| ==> order[i] in at && parts[i] == (order[i], at[order[i]])
    ensures parts == Split(tables)
  {
  }

  lemma {:induction false} SortedHasAll(tables: seq<string>, order: seq<string>, at: map<string, seq<nat>>)
    requires Sorted(tables, order, at)
    ensures forall i :: 0 <= i < |order| ==> order[i] in at
  {
    forall i | 0 <= i < |order| ensures order[i] in at {
      assert order[i] in order;
    }
  }

  // One pass that sorts every change under its table.
  method SortOnce(tables: seq<string>) returns (parts: seq<(string, seq<nat>)>)
    ensures parts == Split(tables)
  {
    var order: seq<string>, at: map<string, seq<nat>> := [], map[];
    for i := 0 to |tables|
      invariant Sorted(tables[..i], order, at)
    {
      var t := tables[i];
      SortedOneMore(tables[..i], t, order, at);
      assert tables[..i + 1] == tables[..i] + [t];
      var was := if t in at then at[t] else [];
      if t !in at {
        order := order + [t];
      }
      at := at[t := was + [i]];
    }
    assert tables[..|tables|] == tables;
    SortedHasAll(tables, order, at);
    parts := seq(|order|, i requires 0 <= i < |order| => (order[i], at[order[i]]));
    SortedIsSplit(tables, order, at, parts);
  }

  lemma {:induction false} NoPositions(tables: seq<string>, t: string)
    ensures t !in tables ==> Positions(tables, t) == []
  {
    if tables != [] && t !in tables {
      NoPositions(tables[..|tables| - 1], t);
    }
  }

  // ---- Every table collapsed

  lemma {:induction false} NetOfTable(changes: seq<Change>, table: string)
    requires Keyed(changes)
    ensures Net(OwnTouches(changes, table)) == InTable(Net(BatchTouches(changes)), table)
  {
    TouchesOfTable(changes, table);
    NetInTable(BatchTouches(changes), table);
  }

  predicate TableTaken(changes: seq<Change>, table: string) {
    OfTable(changes, table) != [] && TableWhy(OfTable(changes, table)).None?
  }

  // The tables the batch collapses to, one a table, in order of first change.
  ghost predicate Collapses(changes: seq<Change>, tables: seq<TableNet>)
    requires Keyed(changes)
  {
    var named := FirstTouched(TablesOf(changes));
    |tables| == |named| &&
    forall i :: 0 <= i < |named| ==> tables[i].table == named[i] && tables[i].rows == InTable(Net(BatchTouches(changes)), named[i])
  }

  lemma {:induction false} ChangeIsInItsTable(changes: seq<Change>, c: Change)
    requires c in changes
    ensures c in OfTable(changes, c.table) && c.table in FirstTouched(TablesOf(changes))
  {
    var i :| 0 <= i < |changes| && changes[i] == c;
    assert TablesOf(changes)[i] == c.table;
    var at := PositionsOf(changes, c.table);
    assert i in at;
    var j :| 0 <= j < |at| && at[j] == i;
    assert OfTable(changes, c.table)[j] == c;
  }

  lemma {:induction false} NamedHasChanges(changes: seq<Change>, t: string)
    requires t in FirstTouched(TablesOf(changes))
    ensures OfTable(changes, t) != []
  {
    var i :| 0 <= i < |changes| && TablesOf(changes)[i] == t;
    ChangeIsInItsTable(changes, changes[i]);
  }

  // The net of a table's own changes.
  function OwnNet(changes: seq<Change>, t: string): seq<Touch>
    requires Keyed(OfTable(changes, t))
  {
    Net(Touches(OfTable(changes, t), PositionsOf(changes, t)))
  }

  ghost predicate TableCollapses(changes: seq<Change>, t: string, net: TableNet) {
    TableTaken(changes, t) && net.table == t && net.rows == OwnNet(changes, t)
  }

  // The first tables named have collapsed so far.
  ghost predicate SoFar(changes: seq<Change>, named: seq<string>, out: seq<TableNet>) {
    Matched((t: string, net: TableNet) => TableCollapses(changes, t, net), named, out)
  }

  ghost predicate Matched<S, T>(good: (S, T) -> bool, a: seq<S>, b: seq<T>) {
    |b| <= |a| && forall j :: 0 <= j < |b| ==> good(a[j], b[j])
  }

  lemma {:induction false} MatchedMore<S, T>(good: (S, T) -> bool, a: seq<S>, b: seq<T>, x: T)
    requires Matched(good, a, b) && |b| < |a| && good(a[|b|], x)
    ensures Matched(good, a, b + [x])
  {
  }

  lemma {:induction false} OneMore(changes: seq<Change>, named: seq<string>, out: seq<TableNet>, net: TableNet)
    requires SoFar(changes, named, out) && |out| < |named| && TableCollapses(changes, named[|out|], net)
    ensures SoFar(changes, named, out + [net])
  {
    MatchedMore((t: string, net: TableNet) => TableCollapses(changes, t, net), named, out, net);
  }

  lemma {:induction false} TablesCollapse(changes: seq<Change>, tables: seq<TableNet>)
    requires var named := FirstTouched(TablesOf(changes)); |tables| == |named| && SoFar(changes, named, tables)
    ensures Keyed(changes) && Collapses(changes, tables)
  {
    var named := FirstTouched(TablesOf(changes));
    forall c | c in changes ensures c.key.Some? {
      ChangeIsInItsTable(changes, c);
      var j :| 0 <= j < |named| && named[j] == c.table;
      assert TableCollapses(changes, named[j], tables[j]);
    }
    forall j | 0 <= j < |named| ensures tables[j].table == named[j] && tables[j].rows == InTable(Net(BatchTouches(changes)), named[j]) {
      assert TableCollapses(changes, named[j], tables[j]);
      NetOfTable(changes, named[j]);
    }
  }

  // Of the tables in the order they first come, the first that is not
  // collapsed is not for this reason.
  ghost predicate RefusedFirst(changes: seq<Change>, why: Why) {
    var named := FirstTouched(TablesOf(changes));
    exists i :: 0 <= i < |named| && FirstRefusal(changes, named, i, why)
  }

  ghost predicate FirstRefusal(changes: seq<Change>, named: seq<string>, i: nat, why: Why)
    requires i < |named|
  {
    Trouble(OfTable(changes, named[i])) == Some(why) && forall j :: 0 <= j < i ==> Trouble(OfTable(changes, named[j])) == None
  }

  ghost predicate AllTaken(changes: seq<Change>) {
    forall t :: t in FirstTouched(TablesOf(changes)) ==> TableTaken(changes, t)
  }

  // Nothing is wrong with any table of the batch.
  ghost predicate Untroubled(changes: seq<Change>) {
    forall t :: t in FirstTouched(TablesOf(changes)) ==> Trouble(OfTable(changes, t)) == None
  }

  lemma {:induction false} TakenIsUntroubled(changes: seq<Change>)
    ensures AllTaken(changes) <==> Untroubled(changes)
  {
    forall t | t in FirstTouched(TablesOf(changes)) ensures TableTaken(changes, t) <==> Trouble(OfTable(changes, t)) == None {
      NamedHasChanges(changes, t);
      TroubleIsWhy(OfTable(changes, t));
    }
  }

  // No write adds to a value, keeps one or says it is not there, and none
  // holds the place of a value that was not sent.
  lemma {:induction false} UntroubledIsPlain(changes: seq<Change>, c: Change, k: string, v: Cell)
    requires Untroubled(changes) && c in changes && Writing(c, k, v)
    ensures !v.Added? && !v.Kept? && v != Absent
    ensures v != Text("unchanged-toast-datum") && v != Text("__debezium_unavailable_value")
            && v != Text("__debezium_unchanged_toast_value")
  {
    ChangeIsInItsTable(changes, c);
    NoTroubleIsPlain(OfTable(changes, c.table), c, k, v);
  }

  method CollapseOne(changes: seq<Change>, t: string, at: seq<nat>) returns (got: Outcome<TableNet>)
    requires t in FirstTouched(TablesOf(changes)) && at == PositionsOf(changes, t)
    ensures got.Taken? ==> TableCollapses(changes, t, got.value)
    ensures got.Refused? ==> Trouble(OfTable(changes, t)) == Some(got.why)
  {
    NamedHasChanges(changes, t);
    var mine := OfTable(changes, t);
    got := CollapseTable(t, mine, at);
    TroubleIsWhy(mine);
    if got.Taken? {
      CollapsesTaken(changes, t, got.value);
    }
  }

  lemma {:induction false} CollapsesTaken(changes: seq<Change>, t: string, net: TableNet)
    requires OfTable(changes, t) != [] && TableWhy(OfTable(changes, t)).None?
    requires net.table == t && net.rows == Net(Touches(OfTable(changes, t), PositionsOf(changes, t)))
    ensures TableCollapses(changes, t, net)
  {
  }

  lemma {:induction false} RefusedAt(changes: seq<Change>, named: seq<string>, out: seq<TableNet>, why: Why)
    requires named == FirstTouched(TablesOf(changes)) && SoFar(changes, named, out)
    requires |out| < |named| && Trouble(OfTable(changes, named[|out|])) == Some(why)
    ensures RefusedFirst(changes, why)
  {
    forall j | 0 <= j < |out| ensures Trouble(OfTable(changes, named[j])) == None {
      assert TableCollapses(changes, named[j], out[j]);
      TroubleIsWhy(OfTable(changes, named[j]));
    }
    assert FirstRefusal(changes, named, |out|, why);
  }

  lemma {:induction false} AllCollapsed(changes: seq<Change>, named: seq<string>, out: seq<TableNet>, t: string)
    requires SoFar(changes, named, out) && |out| == |named| && t in named
    ensures TableTaken(changes, t)
  {
    var j :| 0 <= j < |named| && named[j] == t;
    assert TableCollapses(changes, named[j], out[j]);
  }

  // The batch is refused with the first refusing table's reason; otherwise
  // every table is taken, each its part of the whole batch's net.
  method Collapse(changes: seq<Change>) returns (got: Outcome<seq<TableNet>>)
    ensures got.Taken? ==> Keyed(changes) && Collapses(changes, got.value)
    ensures got.Taken? ==> AllTaken(changes) && Untroubled(changes)
    ensures got.Refused? ==> RefusedFirst(changes, got.why)
  {
    var named := FirstTouched(TablesOf(changes));
    var parts := SplitTables(TablesOf(changes));
    var out: seq<TableNet> := [];
    for i := 0 to |parts|
      invariant |out| == i && SoFar(changes, named, out)
    {
      assert named[i] in named;
      var one := CollapseOne(changes, parts[i].0, parts[i].1);
      if one.Refused? {
        RefusedAt(changes, named, out, one.why);
        return Refused(one.why);
      }
      OneMore(changes, named, out, one.value);
      out := out + [one.value];
    }
    TablesCollapse(changes, out);
    forall t | t in named ensures TableTaken(changes, t) {
      AllCollapsed(changes, named, out, t);
    }
    TakenIsUntroubled(changes);
    got := Taken(out);
  }

  // ---- Rows merged in the order of first touch

  function Merge(a: seq<Touch>, b: seq<Touch>): seq<Touch> {
    if a == [] then b
    else if b == [] then a
    else if a[0].number <= b[0].number then [a[0]] + Merge(a[1..], b)
    else [b[0]] + Merge(a, b[1..])
  }

  function MergeAll(lists: seq<seq<Touch>>): seq<Touch> {
    if lists == [] then [] else Merge(lists[0], MergeAll(lists[1..]))
  }

  ghost predicate NumbersDiffer(a: seq<Touch>, b: seq<Touch>) {
    forall x, y :: x in a && y in b ==> x.number != y.number
  }

  lemma {:induction false} MergeHas(a: seq<Touch>, b: seq<Touch>, x: Touch)
    ensures x in Merge(a, b) <==> x in a || x in b
  {
    if a != [] && b != [] {
      if a[0].number <= b[0].number {
        MergeHas(a[1..], b, x);
      } else {
        MergeHas(a, b[1..], x);
      }
    }
  }

  lemma {:induction false} AscendingCons(x: Touch, ts: seq<Touch>)
    requires Ascending(ts) && forall y :: y in ts ==> x.number < y.number
    ensures Ascending([x] + ts)
  {
    assert forall i :: 0 <= i < |ts| ==> ts[i] in ts;
  }

  lemma {:induction false} AscendingTail(ts: seq<Touch>)
    requires ts != [] && Ascending(ts)
    ensures Ascending(ts[1..]) && forall y :: y in ts[1..] ==> ts[0].number < y.number && y in ts
  {
    forall y | y in ts[1..] ensures ts[0].number < y.number && y in ts {
      var i :| 0 <= i < |ts[1..]| && ts[1..][i] == y;
      assert ts[i + 1] == y;
    }
  }

  lemma {:induction false} MergeAscending(a: seq<Touch>, b: seq<Touch>)
    requires Ascending(a) && Ascending(b) && NumbersDiffer(a, b)
    ensures Ascending(Merge(a, b))
  {
    if a != [] && b != [] {
      AscendingTail(a);
      AscendingTail(b);
      assert a[0] in a && b[0] in b;
      var rest := if a[0].number <= b[0].number then Merge(a[1..], b) else Merge(a, b[1..]);
      if a[0].number <= b[0].number {
        MergeAscending(a[1..], b);
        forall y | y in rest ensures a[0].number < y.number { MergeHas(a[1..], b, y); }
        AscendingCons(a[0], rest);
      } else {
        MergeAscending(a, b[1..]);
        forall y | y in rest ensures b[0].number < y.number { MergeHas(a, b[1..], y); }
        AscendingCons(b[0], rest);
      }
    }
  }

  lemma {:induction false} OneNumberOneTouch(ts: seq<Touch>, x: Touch, y: Touch)
    requires Ascending(ts) && x in ts && y in ts && x.number == y.number
    ensures x == y
  {
  }

  // Merging a net's tables gives the net back.
  lemma {:induction false} MergeTables(net: seq<Touch>, named: seq<string>, lists: seq<seq<Touch>>)
    requires Ascending(net) && Distinct(named) && |lists| == |named|
    requires forall i :: 0 <= i < |named| ==> lists[i] == InTable(net, named[i])
    ensures Ascending(MergeAll(lists))
    ensures forall x :: x in MergeAll(lists) <==> x in net && x.row.table in named
  {
    if named != [] {
      MergeTables(net, named[1..], lists[1..]);
      var rest := MergeAll(lists[1..]);
      InTableAscending(net, named[0]);
      forall x, y | x in lists[0] && y in rest ensures x.number != y.number {
        InTableHas(net, named[0], x);
        var j :| 0 <= j < |named[1..]| && named[1..][j] == y.row.table;
        assert named[j + 1] != named[0];
        if x.number == y.number { OneNumberOneTouch(net, x, y); }
      }
      MergeAscending(lists[0], rest);
      forall x ensures x in MergeAll(lists) <==> x in net && x.row.table in named {
        MergeHas(lists[0], rest, x);
        InTableHas(net, named[0], x);
        assert x.row.table in named <==> x.row.table == named[0] || x.row.table in named[1..];
      }
    }
  }

  // A net's row is the row of one of its touches.
  lemma {:induction false} NetRowIsTouched(ts: seq<Touch>, x: Touch)
    requires x in Net(ts)
    ensures exists y :: y in ts && y.row == x.row
  {
    var before, last := ts[..|ts| - 1], ts[|ts| - 1];
    NetDistinct(before);
    var at := SettleCases(Net(before), last);
    if x.row == last.row {
      assert last in ts;
    } else {
      assert x in Net(before);
      NetRowIsTouched(before, x);
      var y :| y in before && y.row == x.row;
      assert y in ts;
    }
  }

  lemma {:induction false} TouchedTableIsNamed(changes: seq<Change>, at: seq<nat>, row: NetRow)
    requires Keyed(changes) && |at| == |changes| && exists y :: y in Touches(changes, at) && y.row == row
    ensures row.table in TablesOf(changes)
  {
    var n := |changes| - 1;
    var y :| y in Touches(changes, at) && y.row == row;
    if y in Touches(changes[..n], at[..n]) {
      TouchedTableIsNamed(changes[..n], at[..n], row);
      var i :| 0 <= i < n && TablesOf(changes[..n])[i] == row.table;
      assert TablesOf(changes)[i] == row.table;
    } else {
      assert y in TouchesOf(changes[n], at[n]);
      assert TablesOf(changes)[n] == row.table;
    }
  }

  // Merging the tables of a collapsed batch is its first-touch order.
  lemma {:induction false} MergedIsFirstTouchOrder(changes: seq<Change>, tables: seq<TableNet>)
    requires Keyed(changes) && Collapses(changes, tables)
    ensures MergeAll(RowLists(tables)) == Net(BatchTouches(changes))
    ensures Ascending(Net(BatchTouches(changes))) && DistinctPlaces(Net(BatchTouches(changes)))
  {
    var named, net := FirstTouched(TablesOf(changes)), Net(BatchTouches(changes));
    TouchesAscending(changes, Upto(|changes|));
    NetAscending(BatchTouches(changes));
    NetDistinct(BatchTouches(changes));
    MergeTables(net, named, RowLists(tables));
    forall x | x in net ensures x.row.table in named {
      NetRowIsTouched(BatchTouches(changes), x);
      TouchedTableIsNamed(changes, Upto(|changes|), x.row);
    }
    SameMembersSameOrder(MergeAll(RowLists(tables)), net);
  }

  function RowLists(tables: seq<TableNet>): (lists: seq<seq<Touch>>)
    ensures |lists| == |tables| && forall i :: 0 <= i < |lists| ==> lists[i] == tables[i].rows
  {
    seq(|tables|, i requires 0 <= i < |tables| => tables[i].rows)
  }

  // ---- A run of each kind a table

  datatype Group = Group(table: string, kind: Kind, rows: seq<Touch>)

  function OfKind(ts: seq<Touch>, kind: Kind): seq<Touch> {
    if ts == [] then [] else (if ts[0].row.kind == kind then [ts[0]] else []) + OfKind(ts[1..], kind)
  }

  lemma {:induction false} OfKindHas(ts: seq<Touch>, kind: Kind, x: Touch)
    ensures x in OfKind(ts, kind) <==> x in ts && x.row.kind == kind
  {
    if ts != [] {
      OfKindHas(ts[1..], kind, x);
    }
  }

  // Each table's run of one kind, where it has any.
  function KindGroups(tables: seq<TableNet>, kind: Kind): (gs: seq<Group>)
    ensures forall i :: 0 <= i < |gs| ==> gs[i].rows != [] && gs[i].kind == kind
  {
    if tables == [] then []
    else
      var mine := OfKind(tables[0].rows, kind);
      (if mine == [] then [] else [Group(tables[0].table, kind, mine)]) + KindGroups(tables[1..], kind)
  }

  function FirstNumber(g: Group): nat { if g.rows == [] then 0 else g.rows[0].number }

  // Sorted by the number of the group's first row.
  function Ranked(gs: seq<Group>): seq<Group> {
    if gs == [] then [] else Insert(gs[0], Ranked(gs[1..]))
  }

  function Insert(g: Group, gs: seq<Group>): seq<Group> {
    if gs == [] || FirstNumber(g) <= FirstNumber(gs[0]) then [g] + gs else [gs[0]] + Insert(g, gs[1..])
  }

  function GroupsOf(tables: seq<TableNet>): seq<Group> {
    Ranked(KindGroups(tables, Delete)) + Ranked(KindGroups(tables, Upsert))
  }

  ghost predicate Pure(gs: seq<Group>, kind: Kind) {
    forall g :: g in gs ==> g.rows != [] && g.kind == kind && forall x :: x in g.rows ==> x.row.kind == kind
  }

  lemma {:induction false} KindGroupsPure(tables: seq<TableNet>, kind: Kind)
    ensures Pure(KindGroups(tables, kind), kind)
  {
    if tables != [] {
      KindGroupsPure(tables[1..], kind);
      forall x | x in OfKind(tables[0].rows, kind) ensures x.row.kind == kind {
        OfKindHas(tables[0].rows, kind, x);
      }
    }
  }

  lemma {:induction false} InsertPure(g: Group, gs: seq<Group>, kind: Kind)
    requires Pure([g], kind) && Pure(gs, kind)
    ensures Pure(Insert(g, gs), kind)
  {
    assert g in [g];
    if gs != [] && FirstNumber(g) > FirstNumber(gs[0]) {
      InsertPure(g, gs[1..], kind);
    }
  }

  lemma {:induction false} RankedPure(gs: seq<Group>, kind: Kind)
    requires Pure(gs, kind)
    ensures Pure(Ranked(gs), kind)
  {
    if gs != [] {
      RankedPure(gs[1..], kind);
      InsertPure(gs[0], Ranked(gs[1..]), kind);
    }
  }

  // Every run is of one kind, and no delete is written after an upsert.
  lemma {:induction false} DeletesFirst(tables: seq<TableNet>, i: nat, j: nat)
    requires i < j < |GroupsOf(tables)|
    ensures GroupsOf(tables)[j].kind == Delete ==> GroupsOf(tables)[i].kind == Delete
    ensures forall x :: x in GroupsOf(tables)[i].rows ==> x.row.kind == GroupsOf(tables)[i].kind
  {
    KindGroupsPure(tables, Delete);
    KindGroupsPure(tables, Upsert);
    RankedPure(KindGroups(tables, Delete), Delete);
    RankedPure(KindGroups(tables, Upsert), Upsert);
    var a, b := Ranked(KindGroups(tables, Delete)), Ranked(KindGroups(tables, Upsert));
    assert GroupsOf(tables)[i] in (if i < |a| then a else b);
    assert GroupsOf(tables)[j] in (if j < |a| then a else b);
  }

  function Flat(gs: seq<Group>): seq<Touch> {
    if gs == [] then [] else gs[0].rows + Flat(gs[1..])
  }

  // ---- The plan

  datatype Rows = Ungrouped(rows: seq<Touch>) | Grouped(groups: seq<Group>)

  datatype Plan = Plan(bound: seq<NetRow>, rows: Rows)

  datatype Planned = Made(plan: Plan) | RowsOnly(why: Why) | Raised

  function RowList(ts: seq<Touch>): (rows: seq<NetRow>)
    ensures |rows| == |ts| && forall i :: 0 <= i < |ts| ==> rows[i] == ts[i].row
  {
    seq(|ts|, i requires 0 <= i < |ts| => ts[i].row)
  }

  // The plan's rows in the order they are written.
  function PlanRows(plan: Plan): seq<NetRow> {
    plan.bound + RowList(match plan.rows case Ungrouped(rows) => rows case Grouped(groups) => Flat(groups))
  }

  // The changes to the tables bound by keys, or those to the others.
  function Part(changes: seq<Change>, ordered: set<string>, bound: bool): (part: seq<Change>)
    ensures forall c :: c in part <==> c in changes && (c.table in ordered) == bound
  {
    if changes == [] then []
    else
      var c := changes[|changes| - 1];
      Part(changes[..|changes| - 1], ordered, bound) + if (c.table in ordered) == bound then [c] else []
  }

  function OrderedTables(ordered: Option<set<string>>): set<string> {
    if ordered.Some? then ordered.value else {}
  }

  // A change the rows way can read: its rows are then its touches.
  predicate Legible(c: Change) {
    IsChange(c.op) && c.key.Some? && MovesReadably(c)
  }

  ghost predicate IsPlan(changes: seq<Change>, ordered: Option<set<string>>, plan: Plan) {
    var bound, loose := Part(changes, OrderedTables(ordered), true), Part(changes, OrderedTables(ordered), false);
    && Keyed(bound) && Keyed(loose)
    && plan.bound == RowList(BatchTouches(bound))
    && (ordered.None? ==> plan.rows == Ungrouped(Net(BatchTouches(loose))))
    && (ordered.Some? ==> exists tables :: Collapses(loose, tables) && plan.rows == Grouped(GroupsOf(tables)))
  }

  lemma {:induction false} OneBoundMore(bound: seq<Change>, c: Change)
    requires Keyed(bound) && c.key.Some?
    ensures Keyed(bound + [c])
    ensures RowList(BatchTouches(bound + [c])) == RowList(BatchTouches(bound)) + RowList(TouchesOf(c, |bound|))
  {
    BatchTouchesGrow(bound, c);
  }

  // The bound changes' rows, change by change; None where one cannot be read.
  method BoundRows(bound: seq<Change>) returns (rows: Option<seq<NetRow>>)
    ensures rows.Some? <==> forall c :: c in bound ==> Legible(c)
    ensures rows.Some? ==> Keyed(bound) && rows.value == RowList(BatchTouches(bound))
  {
    var out: seq<NetRow> := [];
    for i := 0 to |bound|
      invariant forall c :: c in bound[..i] ==> Legible(c)
      invariant Keyed(bound[..i]) && out == RowList(BatchTouches(bound[..i]))
    {
      var c := bound[i];
      if !Legible(c) {
        return None;
      }
      assert bound[..i + 1] == bound[..i] + [c];
      OneBoundMore(bound[..i], c);
      out := out + RowList(TouchesOf(c, i));
    }
    assert bound[..|bound|] == bound;
    rows := Some(out);
  }

  function Assembled(ordered: Option<set<string>>, bound: seq<NetRow>, tables: seq<TableNet>): (plan: Plan)
    ensures plan.rows.Ungrouped? <==> ordered.None?
  {
    Plan(bound, if ordered.None? then Ungrouped(MergeAll(RowLists(tables))) else Grouped(GroupsOf(tables)))
  }

  lemma {:induction false} AssembledIsPlan(changes: seq<Change>, ordered: Option<set<string>>, bound: seq<NetRow>, tables: seq<TableNet>)
    requires var before, loose := Part(changes, OrderedTables(ordered), true), Part(changes, OrderedTables(ordered), false);
             Keyed(before) && Keyed(loose) && bound == RowList(BatchTouches(before)) && Collapses(loose, tables)
    ensures IsPlan(changes, ordered, Assembled(ordered, bound, tables))
  {
    MergedIsFirstTouchOrder(Part(changes, OrderedTables(ordered), false), tables);
  }

  // The plan of a batch, or why its loose tables are not collapsed as columns.
  method PlanOf(changes: seq<Change>, ordered: Option<set<string>>) returns (got: Planned)
    ensures got.Made? ==> IsPlan(changes, ordered, got.plan)
    ensures got.Made? ==> (ordered.None? <==> got.plan.rows.Ungrouped?)
    ensures got.Made? ==> var loose := Part(changes, OrderedTables(ordered), false); AllTaken(loose) && Untroubled(loose)
    ensures got.Made? ==> forall c, k, v :: c in changes && c.table !in OrderedTables(ordered) && Writing(c, k, v)
                            ==> !v.Added? && !v.Kept? && v != Absent && v != Text("unchanged-toast-datum")
                                && v != Text("__debezium_unavailable_value") && v != Text("__debezium_unchanged_toast_value")
    ensures got.RowsOnly? ==> RefusedFirst(Part(changes, OrderedTables(ordered), false), got.why)
    ensures got.Raised? ==> exists c :: c in changes && c.table in OrderedTables(ordered) && !Legible(c)
  {
    var bound, loose := Part(changes, OrderedTables(ordered), true), Part(changes, OrderedTables(ordered), false);
    var tables := Collapse(loose);
    if tables.Refused? {
      return RowsOnly(tables.why);
    }
    var rows := BoundRows(bound);
    if rows.None? {
      return Raised;
    }
    AssembledIsPlan(changes, ordered, rows.value, tables.value);
    forall c, k, v | c in changes && c.table !in OrderedTables(ordered) && Writing(c, k, v)
      ensures !v.Added? && !v.Kept? && v != Absent && v != Text("unchanged-toast-datum")
              && v != Text("__debezium_unavailable_value") && v != Text("__debezium_unchanged_toast_value")
    {
      UntroubledIsPlain(loose, c, k, v);
    }
    got := Made(Assembled(ordered, rows.value, tables.value));
  }
}
