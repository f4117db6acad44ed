// A table's changes collapsed as columns, and what they are refused for
// (`migkit/applyway.py`).
module Refusals {
  import opened LastEvent
  import opened NetRows
  import opened Changes
  import opened ApplyWay

  ghost predicate Stranger(mine: seq<Change>) {
    exists c :: c in mine && c.op != "insert" && c.op != "update" && c.op != "delete"
  }

  ghost predicate Keyless(mine: seq<Change>) { exists c :: c in mine && c.key == None }

  // On no column, or on different ones, or on the same in another order.
  ghost predicate Apart(mine: seq<Change>) {
    exists c, d :: c in mine && d in mine && c.key.Some? && d.key.Some?
                   && (c.key.value.cols == [] || c.key.value.cols != d.key.value.cols)
  }

  ghost predicate Differ(mine: seq<Change>) {
    exists c, d :: c in mine && d in mine && c.op != "delete" && d.op != "delete" && Values(c).cols != Values(d).cols
  }

  ghost predicate Writing(c: Change, k: string, v: Cell) { c.op != "delete" && k in Values(c).at && Values(c).at[k] == v }

  ghost predicate AddsOrKeepsOne(mine: seq<Change>) {
    exists c, k, v :: c in mine && Writing(c, k, v) && (v.Added? || v.Kept? || v == Absent)
  }

  ghost predicate HoldsPlace(mine: seq<Change>) {
    exists c, k, v :: c in mine && Writing(c, k, v)
                      && (v == Text("unchanged-toast-datum") || v == Text("__debezium_unavailable_value")
                          || v == Text("__debezium_unchanged_toast_value"))
  }

  // A key moved by a write that does not carry all of it.
  ghost predicate Halfway(mine: seq<Change>) {
    exists c, k :: c in mine && c.op != "delete" && c.key.Some? && Moves(c) && k in c.key.value.at && k !in Values(c).at
  }

  // A cell of the key column k: at the row's old address, or at its new one.
  ghost predicate KeyCell(c: Change, k: string, v: Cell) {
    c.key.Some? && k in c.key.value.at &&
    (v == c.key.value.at[k] || (c.op != "delete" && Moves(c) && k in Values(c).at && v == Values(c).at[k]))
  }

  ghost predicate Together(v: Cell, w: Cell) { (v.Int? && w.Int?) || (v.Text? && w.Text?) || (v.Bytes? && w.Bytes?) }

  ghost predicate Mixed(mine: seq<Change>) {
    exists c, d, k, v, w :: c in mine && d in mine && KeyCell(c, k, v) && KeyCell(d, k, w) && !Together(v, w)
  }

  // The first thing wrong, of those looked for.
  ghost function Trouble(mine: seq<Change>): Option<Why> {
    if Stranger(mine) then Some(NotAChange)
    else if Keyless(mine) then Some(Unreadable)
    else if Apart(mine) then Some(KeyedApart)
    else if Differ(mine) then Some(ColumnsDiffer)
    else if AddsOrKeepsOne(mine) then Some(AddsOrKeeps)
    else if HoldsPlace(mine) then Some(Placeholder)
    else if Halfway(mine) then Some(Unreadable)
    else if Mixed(mine) then Some(KeyTypes)
    else None
  }

  lemma {:induction false} NoTroubleIsPlain(mine: seq<Change>, c: Change, k: string, v: Cell)
    requires Trouble(mine) == None && c in mine && Writing(c, k, v)
    ensures !v.Added? && !v.Kept? && v != Absent
    ensures v != Text("unchanged-toast-datum") && v != Text("__debezium_unavailable_value")
            && v != Text("__debezium_unchanged_toast_value")
  {
    assert !AddsOrKeepsOne(mine) && !HoldsPlace(mine);
  }

  lemma {:induction false} OneKeyIsNotApart(mine: seq<Change>)
    requires mine != [] && Keyed(mine)
    ensures OneKey(mine) <==> !Apart(mine)
  {
    assert mine[0] in mine;
  }

  lemma {:induction false} ConcreteIs(v: Cell)
    ensures !Concrete(v) <==> v == Text("unchanged-toast-datum") || v == Text("__debezium_unavailable_value")
                              || v == Text("__debezium_unchanged_toast_value")
  {
  }

  // A write that does not hold it has a cell that does not.
  lemma {:induction false} CellOf(c: Change, holds: Cell -> bool)
    ensures !CellsHold(c, holds) <==> exists k, v :: Writing(c, k, v) && !holds(v)
  {
    if !CellsHold(c, holds) {
      var k :| k in Values(c).at && !holds(Values(c).at[k]);
      assert Writing(c, k, Values(c).at[k]);
    }
  }

  lemma {:induction false} MarksAreWritten(mine: seq<Change>)
    ensures (exists c :: c in mine && !CellsHold(c, Plain)) <==> AddsOrKeepsOne(mine)
  {
    if c :| c in mine && !CellsHold(c, Plain) {
      CellOf(c, Plain);
      var k, v :| Writing(c, k, v) && !Plain(v);
    }
    if c, k, v :| c in mine && Writing(c, k, v) && (v.Added? || v.Kept? || v == Absent) {
      CellOf(c, Plain);
      assert !Plain(v);
    }
  }

  lemma {:induction false} PlacesAreWritten(mine: seq<Change>)
    ensures (exists c :: c in mine && !CellsHold(c, Concrete)) <==> HoldsPlace(mine)
  {
    if c :| c in mine && !CellsHold(c, Concrete) {
      CellOf(c, Concrete);
      var k, v :| Writing(c, k, v) && !Concrete(v);
      ConcreteIs(v);
    }
    if c, k, v :| c in mine && Writing(c, k, v)
                  && (v == Text("unchanged-toast-datum") || v == Text("__debezium_unavailable_value")
                      || v == Text("__debezium_unchanged_toast_value")) {
      CellOf(c, Concrete);
      ConcreteIs(v);
      assert !Concrete(v);
    }
  }

  // ---- The key's cells

  lemma {:induction false} LastHappenings(mine: seq<Change>)
    requires mine != [] && Keyed(mine)
    ensures var n := |mine| - 1;
            var before, own := Happenings(mine[..n]), HappeningsOf(mine[n], n);
            && |Happenings(mine)| == |before| + |own|
            && (forall i :: 0 <= i < |before| ==> Happenings(mine)[i] == before[i])
            && (forall m :: 0 <= m < |own| ==> Happenings(mine)[|before| + m] == own[m])
  {
  }

  // A change's first happening: it leaves, and arrives next, or it stays.
  ghost predicate Happens(mine: seq<Change>, c: Change, i: nat)
    requires Keyed(mine)
  {
    var ev := Happenings(mine);
    && i < |ev| && mine[ev[i].j] == c
    && (if Writes(c) && Moves(c) then ev[i].flag == Leaves && i + 1 < |ev| && ev[i + 1] == Happening(ev[i].j, Arrives)
        else ev[i].flag == Stays)
  }

  lemma {:induction false} HappeningIs(mine: seq<Change>, c: Change) returns (i: nat)
    requires Keyed(mine) && c in mine
    ensures c.key.Some? && Happens(mine, c, i)
  {
    var n := |mine| - 1;
    LastHappenings(mine);
    if mine[n] == c {
      i := |Happenings(mine[..n])|;
      var own := HappeningsOf(c, n);
      assert Happenings(mine)[i + 0] == own[0];
    } else {
      assert c in mine[..n];
      i := HappeningIs(mine[..n], c);
    }
  }

  lemma {:induction false} FlagsAre(mine: seq<Change>, i: nat)
    requires Keyed(mine) && i < |Happenings(mine)|
    ensures var e := Happenings(mine)[i];
            if Writes(mine[e.j]) && Moves(mine[e.j]) then e.flag != Stays else e.flag == Stays
  {
    var n := |mine| - 1;
    if i < |Happenings(mine[..n])| {
      FlagsAre(mine[..n], i);
      assert mine[..n][Happenings(mine)[i].j] == mine[Happenings(mine)[i].j];
    }
  }

  // Each row's key cells are key cells of its change, and each key cell is in
  // a row.
  lemma {:induction false} RowHasKeyCell(mine: seq<Change>, r: NetRow, k: string)
    requires Keyed(mine) && !Halfway(mine) && r in RowsOfAll(mine) && k in r.key
    ensures exists c :: c in mine && KeyCell(c, k, r.key[k])
  {
    var i :| 0 <= i < |RowsOfAll(mine)| && RowsOfAll(mine)[i] == r;
    var e := Happenings(mine)[i];
    FlagsAre(mine, i);
    assert mine[e.j] in mine;
    assert KeyCell(mine[e.j], k, r.key[k]);
  }

  lemma {:induction false} KeyCellHasRow(mine: seq<Change>, c: Change, k: string, v: Cell)
    requires Keyed(mine) && c in mine && KeyCell(c, k, v)
    ensures exists r :: r in RowsOfAll(mine) && k in r.key && r.key[k] == v
  {
    var i := HappeningIs(mine, c);
    var e := Happenings(mine)[i];
    if v == c.key.value.at[k] {
      RowAmong(mine, i);
      assert RowOf(mine, e).key == c.key.value.at;
    } else {
      RowAmong(mine, i + 1);
      assert RowOf(mine, Happening(e.j, Arrives)).key == Arrival(c);
    }
  }

  lemma {:induction false} RowAmong(mine: seq<Change>, i: nat)
    requires Keyed(mine) && i < |Happenings(mine)|
    ensures Happenings(mine)[i].j < |mine| && RowOf(mine, Happenings(mine)[i]) in RowsOfAll(mine)
  {
    assert RowsOfAll(mine)[i] in RowsOfAll(mine);
  }

  lemma {:induction false} TogetherIsOneType(v: Cell, w: Cell)
    ensures Together(v, w) <==> OneType(v, w)
  {
  }

  lemma {:induction false} OneTypeOnward(u: Cell, v: Cell, w: Cell)
    requires OneType(v, u) && OneType(w, u)
    ensures Together(v, w)
  {
  }

  lemma {:induction false} KeyColumns(mine: seq<Change>, r: NetRow, k: string)
    requires mine != [] && Keyed(mine) && OneKey(mine) && r in RowsOfAll(mine)
    ensures k in r.key <==> k in mine[0].key.value.cols
  {
    var i :| 0 <= i < |RowsOfAll(mine)| && RowsOfAll(mine)[i] == r;
    var c := mine[Happenings(mine)[i].j];
    assert c in mine;
    assert r.key.Keys == c.key.value.at.Keys;
  }

  lemma {:induction false} UnmixedHolds(mine: seq<Change>)
    requires mine != [] && Keyed(mine) && OneKey(mine) && !Halfway(mine) && !Mixed(mine)
    ensures TypesHold(mine[0].key.value.cols, RowsOfAll(mine))
  {
    var key, rows := mine[0].key.value.cols, RowsOfAll(mine);
    forall k, r | k in key && r in rows ensures k in r.key && k in rows[0].key && OneType(r.key[k], rows[0].key[k]) {
      assert rows[0] in rows;
      KeyColumns(mine, r, k);
      KeyColumns(mine, rows[0], k);
      RowHasKeyCell(mine, r, k);
      RowHasKeyCell(mine, rows[0], k);
      TogetherIsOneType(r.key[k], rows[0].key[k]);
    }
  }

  lemma {:induction false} CellOfFirstType(mine: seq<Change>, c: Change, k: string, v: Cell)
    requires mine != [] && Keyed(mine) && OneKey(mine) && TypesHold(mine[0].key.value.cols, RowsOfAll(mine))
    requires c in mine && KeyCell(c, k, v)
    ensures RowsOfAll(mine) != [] && k in RowsOfAll(mine)[0].key && OneType(v, RowsOfAll(mine)[0].key[k])
  {
    KeyCellHasRow(mine, c, k, v);
    var r :| r in RowsOfAll(mine) && k in r.key && r.key[k] == v;
    KeyColumns(mine, r, k);
    HeldAt(mine[0].key.value.cols, RowsOfAll(mine), r, k);
  }

  lemma {:induction false} HeldAt(key: seq<string>, rows: seq<NetRow>, r: NetRow, k: string)
    requires TypesHold(key, rows) && r in rows && k in key
    ensures rows != [] && k in r.key && k in rows[0].key && OneType(r.key[k], rows[0].key[k])
  {
  }

  lemma {:induction false} HeldIsUnmixed(mine: seq<Change>)
    requires mine != [] && Keyed(mine) && OneKey(mine) && TypesHold(mine[0].key.value.cols, RowsOfAll(mine))
    ensures !Mixed(mine)
  {
    forall c, d, k, v, w | c in mine && d in mine && KeyCell(c, k, v) && KeyCell(d, k, w) ensures Together(v, w) {
      CellOfFirstType(mine, c, k, v);
      CellOfFirstType(mine, d, k, w);
      OneTypeOnward(RowsOfAll(mine)[0].key[k], v, w);
    }
  }

  lemma {:induction false} MixedExactly(mine: seq<Change>)
    requires mine != [] && Keyed(mine) && OneKey(mine) && !Halfway(mine)
    ensures TypesHold(mine[0].key.value.cols, RowsOfAll(mine)) <==> !Mixed(mine)
  {
    if TypesHold(mine[0].key.value.cols, RowsOfAll(mine)) {
      HeldIsUnmixed(mine);
    }
    if !Mixed(mine) {
      UnmixedHolds(mine);
    }
  }

  lemma {:induction false} KnownExactly(mine: seq<Change>)
    ensures OpsKnown(mine) <==> !Stranger(mine)
    ensures Keyed(mine) <==> !Keyless(mine)
    ensures OneShape(mine) <==> !Differ(mine)
  {
  }

  lemma {:induction false} ReadableIsNotHalfway(mine: seq<Change>)
    requires Keyed(mine)
    ensures (exists c :: c in mine && !MovesReadably(c)) <==> Halfway(mine)
  {
    if c :| c in mine && !MovesReadably(c) {
      var k :| k in c.key.value.at && k !in Values(c).at;
    }
  }

  lemma {:induction false} KeyedExactly(mine: seq<Change>)
    requires mine != [] && Keyed(mine)
    ensures OneKey(mine) <==> !Apart(mine)
    ensures (exists c :: c in mine && !MovesReadably(c)) <==> Halfway(mine)
    ensures OneKey(mine) && !Halfway(mine) ==> (TypesHold(mine[0].key.value.cols, RowsOfAll(mine)) <==> !Mixed(mine))
  {
    OneKeyIsNotApart(mine);
    ReadableIsNotHalfway(mine);
    if OneKey(mine) && !Halfway(mine) {
      MixedExactly(mine);
    }
  }

  // A table is refused for just what is wrong first, and taken where nothing
  // is.
  lemma {:induction false} TroubleIsWhy(mine: seq<Change>)
    requires mine != []
    ensures TableWhy(mine) == Trouble(mine)
  {
    KnownExactly(mine);
    if Keyed(mine) {
      MarksAreWritten(mine);
      PlacesAreWritten(mine);
      KeyedExactly(mine);
    }
  }

  // A table's changes collapsed as columns: the table's net, numbered by
  // where its changes stand in the batch - or the first reason why not.
  method CollapseTable(table: string, changes: seq<Change>, at: seq<nat>) returns (got: Outcome<TableNet>)
    requires changes != [] && |at| == |changes| && forall c :: c in changes ==> c.table == table
    ensures Trouble(changes).Some? ==> got == Refused(Trouble(changes).value)
    ensures Trouble(changes).None? ==>
              && got.Taken? && got.value.table == table && got.value.key == changes[0].key.value.cols
              && got.value.rows == Net(Touches(changes, at))
              && forall c :: c in changes && Writes(c) ==> got.value.names == Names(c)
  {
    TroubleIsWhy(changes);
    var why := TableWhy(changes);
    if why.Some? {
      return Refused(why.value);
    }
    var names := NamesOf(changes);
    var rows := CollectRows(changes, at, Happenings(changes), KeyTuples(changes));
    HappeningsAreTouches(changes, at);
    TuplesTellPlaces(table, changes, at);
    RowsByIsNet(Touches(changes, at), KeyTuples(changes));
    got := Taken(TableNet(table, changes[0].key.value.cols, names, rows));
  }
}
