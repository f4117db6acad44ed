// A batch's changes, what they do to the tables one by one, and the rows
// they touch (`migkit/engines/base.py`, `migkit/applyway.py`).
module Changes {
  import opened LastEvent
  import opened Occurrences
  import opened NetRows

  // ---- A change as it arrives

  // A dictionary and the order its names came in.
  datatype Dict = Dict(cols: seq<string>, at: Cells)

  type Record = d: Dict | Distinct(d.cols) && (forall k :: k in d.at <==> k in d.cols) witness Dict([], map[])

  datatype Change = Change(table: string, op: string, key: Option<Record>, values: Option<Record>)

  predicate IsChange(op: string) { op == "insert" || op == "update" || op == "delete" }

  predicate Writes(c: Change) { c.op != "delete" }

  function Values(c: Change): Record {
    if c.values.Some? then c.values.value else Dict([], map[])
  }

  // The write says another key than the one it is addressed by.
  predicate Moves(c: Change)
    requires c.key.Some?
  {
    exists k :: k in c.key.value.at && k in Values(c).at && !Same(Values(c).at[k], c.key.value.at[k])
  }

  // Where the row stands after the write.
  function Arrival(c: Change): (at: Cells)
    requires c.key.Some?
    ensures at.Keys == c.key.value.at.Keys
  {
    if !Moves(c) then c.key.value.at
    else map k | k in c.key.value.at :: if k in Values(c).at then Values(c).at[k] else c.key.value.at[k]
  }

  function Names(c: Change): set<string>
    requires c.key.Some?
  {
    c.key.value.at.Keys + Values(c).at.Keys
  }

  predicate Keyed(changes: seq<Change>) {
    forall c :: c in changes ==> c.key.Some?
  }

  function TablesOf(changes: seq<Change>): (ts: seq<string>)
    ensures |ts| == |changes| && forall i :: 0 <= i < |ts| ==> ts[i] == changes[i].table
  {
    seq(|changes|, i requires 0 <= i < |changes| => changes[i].table)
  }

  // ---- What the changes do, one by one

  function RowAt(store: Store, p: Place): Cells {
    if p in store then store[p] else map[]
  }

  // A delete takes its row off; a write leaves the row it finds at its old
  // address overlaid with what it carries, at the new one.
  function ApplyChange(store: Store, c: Change): Store
    requires c.key.Some?
  {
    var left := Place(c.table, c.key.value.at);
    if !Writes(c) then store - {left}
    else (store - {left})[Place(c.table, Arrival(c)) := RowAt(store, left) + Arrival(c) + Values(c).at]
  }

  function ApplyAll(store: Store, changes: seq<Change>): Store
    requires Keyed(changes)
  {
    if changes == [] then store
    else ApplyChange(ApplyAll(store, changes[..|changes| - 1]), changes[|changes| - 1])
  }

  // Each write carries every column the rows of its table have.
  ghost predicate WholeRows(cols: map<string, set<string>>, store: Store, changes: seq<Change>)
    requires Keyed(changes)
  {
    && (forall c :: c in changes && Writes(c) ==> c.table in cols && Names(c) == cols[c.table])
    && Within(cols, store)
  }

  ghost predicate Within(cols: map<string, set<string>>, store: Store) {
    forall p :: p in store && p.table in cols ==> store[p].Keys <= cols[p.table]
  }

  // ---- The touches of a batch

  function TouchesOf(c: Change, at: nat): (ts: seq<Touch>)
    requires c.key.Some?
    ensures forall i :: 0 <= i < |ts| ==> ts[i].row.table == c.table && 2 * at <= ts[i].number < 2 * at + 2
    ensures Ascending(ts)
  {
    var key := c.key.value.at;
    if !Writes(c) then [Touch(2 * at, NetRow(c.table, Delete, key, map[]))]
    else if Moves(c) then
      [Touch(2 * at, NetRow(c.table, Delete, key, map[])),
       Touch(2 * at + 1, NetRow(c.table, Upsert, Arrival(c), Values(c).at))]
    else [Touch(2 * at, NetRow(c.table, Upsert, key, Values(c).at))]
  }

  function Touches(changes: seq<Change>, at: seq<nat>): seq<Touch>
    requires |at| == |changes| && Keyed(changes)
  {
    if changes == [] then []
    else Touches(changes[..|changes| - 1], at[..|at| - 1]) + TouchesOf(changes[|changes| - 1], at[|at| - 1])
  }

  function BatchTouches(changes: seq<Change>): seq<Touch>
    requires Keyed(changes)
  {
    Touches(changes, Upto(|changes|))
  }

  ghost predicate Rising(at: seq<nat>) {
    forall i, j :: 0 <= i < j < |at| ==> at[i] < at[j]
  }

  lemma {:induction false} TouchesAscending(changes: seq<Change>, at: seq<nat>)
    requires |at| == |changes| && Keyed(changes) && Rising(at)
    ensures Ascending(Touches(changes, at))
    ensures forall x :: x in Touches(changes, at) ==> at != [] && x.number < 2 * at[|at| - 1] + 2
  {
    if changes != [] {
      var n := |changes| - 1;
      TouchesAscending(changes[..n], at[..n]);
      var a, b := Touches(changes[..n], at[..n]), TouchesOf(changes[n], at[n]);
      forall x | x in a ensures x.number < 2 * at[n] {
        assert at[..n][n - 1] < at[n];
      }
      forall i, j | 0 <= i < j < |a + b| ensures (a + b)[i].number < (a + b)[j].number {
        if i < |a| && j >= |a| { assert a[i] in a; }
      }
    }
  }

  function PositionsOf(changes: seq<Change>, table: string): (at: seq<nat>)
    ensures forall i :: 0 <= i < |at| ==> at[i] < |changes| && changes[at[i]].table == table
    ensures Rising(at)
  {
    Positions(TablesOf(changes), table)
  }

  function OfTable(changes: seq<Change>, table: string): (cs: seq<Change>)
    ensures |cs| == |PositionsOf(changes, table)|
    ensures forall c :: c in cs ==> c in changes && c.table == table
  {
    Sub(changes, PositionsOf(changes, table))
  }

  lemma {:induction false} OfTableGrows(changes: seq<Change>, c: Change, table: string)
    ensures c.table == table ==> PositionsOf(changes + [c], table) == PositionsOf(changes, table) + [|changes|]
    ensures c.table == table ==> OfTable(changes + [c], table) == OfTable(changes, table) + [c]
    ensures c.table != table ==> PositionsOf(changes + [c], table) == PositionsOf(changes, table)
    ensures c.table != table ==> OfTable(changes + [c], table) == OfTable(changes, table)
  {
    assert TablesOf(changes + [c]) == TablesOf(changes) + [c.table];
    PositionsGrow(TablesOf(changes), table, c.table);
    SubGrows(changes, c, PositionsOf(changes, table));
  }

  lemma {:induction false} TouchesGrow(changes: seq<Change>, at: seq<nat>, c: Change, n: nat)
    requires |at| == |changes| && Keyed(changes) && Keyed(changes + [c])
    ensures c.key.Some? && Touches(changes + [c], at + [n]) == Touches(changes, at) + TouchesOf(c, n)
  {
    assert c in changes + [c];
    assert (changes + [c])[..|changes|] == changes && (at + [n])[..|at|] == at;
  }

  lemma {:induction false} BatchTouchesGrow(changes: seq<Change>, c: Change)
    requires Keyed(changes) && Keyed(changes + [c])
    ensures c.key.Some? && BatchTouches(changes + [c]) == BatchTouches(changes) + TouchesOf(c, |changes|)
  {
    assert Upto(|changes| + 1) == Upto(|changes|) + [|changes|];
    TouchesGrow(changes, Upto(|changes|), c, |changes|);
  }

  lemma {:induction false} OneTouched(a: Change)
    requires a.key.Some?
    ensures Keyed([a]) && BatchTouches([a]) == TouchesOf(a, 0)
  {
    assert [] + [a] == [a];
    BatchTouchesGrow([], a);
  }

  lemma {:induction false} TwoTouched(a: Change, b: Change)
    requires a.key.Some? && b.key.Some?
    ensures Keyed([a, b]) && BatchTouches([a, b]) == TouchesOf(a, 0) + TouchesOf(b, 1)
  {
    OneTouched(a);
    assert [a] + [b] == [a, b];
    BatchTouchesGrow([a], b);
  }

  // The touches of a table's own changes, at their positions in the batch.
  function OwnTouches(changes: seq<Change>, table: string): seq<Touch>
    requires Keyed(changes)
  {
    Touches(OfTable(changes, table), PositionsOf(changes, table))
  }

  lemma {:induction false} OwnTouchesGrow(changes: seq<Change>, c: Change, table: string)
    requires Keyed(changes) && Keyed(changes + [c])
    ensures c.key.Some?
    ensures OwnTouches(changes + [c], table)
         == OwnTouches(changes, table) + if c.table == table then TouchesOf(c, |changes|) else []
  {
    assert c in changes + [c];
    OfTableGrows(changes, c, table);
    if c.table == table {
      TouchesGrow(OfTable(changes, table), PositionsOf(changes, table), c, |changes|);
    }
  }

  // A table's own changes, taken out with their positions, make exactly the
  // batch's touches of that table.
  lemma {:induction false} TouchesOfTable(changes: seq<Change>, table: string)
    requires Keyed(changes)
    ensures OwnTouches(changes, table) == InTable(BatchTouches(changes), table)
  {
    if changes != [] {
      var n := |changes| - 1;
      var c, before := changes[n], changes[..n];
      assert changes == before + [c];
      TouchesOfTable(before, table);
      BatchTouchesGrow(before, c);
      OwnTouchesGrow(before, c, table);
      InTableConcat(BatchTouches(before), TouchesOf(c, n), table);
      if c.table == table {
        AllInTable(TouchesOf(c, n), table);
      } else {
        NoneInTable(TouchesOf(c, n), table);
      }
    }
  }

  lemma {:induction false} AllInTable(ts: seq<Touch>, table: string)
    requires forall i :: 0 <= i < |ts| ==> ts[i].row.table == table
    ensures InTable(ts, table) == ts
  {
    if ts != [] {
      AllInTable(ts[1..], table);
    }
  }

  lemma {:induction false} NoneInTable(ts: seq<Touch>, table: string)
    requires forall i :: 0 <= i < |ts| ==> ts[i].row.table != table
    ensures InTable(ts, table) == []
  {
    if ts != [] {
      NoneInTable(ts[1..], table);
    }
  }

  // ---- In order, the changes leave what their touches leave

  ghost predicate Fits(cols: map<string, set<string>>, row: NetRow) {
    row.kind == Upsert ==> row.table in cols && (row.key + row.values).Keys == cols[row.table]
  }

  lemma {:induction false} TouchesFit(cols: map<string, set<string>>, c: Change, at: nat)
    requires c.key.Some? && (Writes(c) ==> c.table in cols && Names(c) == cols[c.table])
    ensures forall x :: x in TouchesOf(c, at) ==> Fits(cols, x.row)
  {
  }

  lemma {:induction false} FewEvents<K, V>(m: map<K, V>, es: seq<Event<K, V>>)
    ensures |es| == 1 ==> DoAll(m, es) == Do(m, es[0])
    ensures |es| == 2 ==> DoAll(m, es) == Do(Do(m, es[0]), es[1])
  {
    if |es| == 2 {
      assert es[..1][..0] == [];
      assert DoAll(m, es[..1]) == Do(m, es[..1][0]);
    } else if |es| == 1 {
      assert es[..0] == [];
    }
  }

  lemma {:induction false} OneChangeIsItsTouches(cols: map<string, set<string>>, store: Store, c: Change, at: nat)
    requires c.key.Some? && (Writes(c) ==> c.table in cols && Names(c) == cols[c.table]) && Within(cols, store)
    ensures ApplyChange(store, c) == DoAll(store, EventsOf(TouchesOf(c, at)))
  {
    FewEvents(store, EventsOf(TouchesOf(c, at)));
    if Writes(c) {
      var left := Place(c.table, c.key.value.at);
      assert RowAt(store, left) + Arrival(c) + Values(c).at == Arrival(c) + Values(c).at;
    }
  }

  lemma {:induction false} OneChangeWithin(cols: map<string, set<string>>, store: Store, c: Change)
    requires c.key.Some? && (Writes(c) ==> c.table in cols && Names(c) == cols[c.table]) && Within(cols, store)
    ensures Within(cols, ApplyChange(store, c))
  {
    if Writes(c) {
      var left := Place(c.table, c.key.value.at);
      assert RowAt(store, left) + Arrival(c) + Values(c).at == Arrival(c) + Values(c).at;
    }
  }

  lemma {:induction false} AllTouchesFit(cols: map<string, set<string>>, changes: seq<Change>, at: seq<nat>)
    requires Keyed(changes) && |at| == |changes|
    requires forall c :: c in changes && Writes(c) ==> c.table in cols && Names(c) == cols[c.table]
    ensures forall x :: x in Touches(changes, at) ==> Fits(cols, x.row)
  {
    if changes != [] {
      var n := |changes| - 1;
      AllTouchesFit(cols, changes[..n], at[..n]);
      TouchesFit(cols, changes[n], at[n]);
    }
  }

  lemma {:induction false} EventsOfConcat(a: seq<Touch>, b: seq<Touch>)
    ensures EventsOf(a + b) == EventsOf(a) + EventsOf(b)
  {
  }

  lemma {:induction false} ChangesAreTheirTouches(cols: map<string, set<string>>, store: Store, changes: seq<Change>, at: seq<nat>)
    requires Keyed(changes) && WholeRows(cols, store, changes) && |at| == |changes|
    ensures ApplyAll(store, changes) == DoAll(store, EventsOf(Touches(changes, at)))
    ensures Within(cols, ApplyAll(store, changes))
  {
    if changes != [] {
      var n := |changes| - 1;
      ChangesAreTheirTouches(cols, store, changes[..n], at[..n]);
      OneChangeIsItsTouches(cols, ApplyAll(store, changes[..n]), changes[n], at[n]);
      OneChangeWithin(cols, ApplyAll(store, changes[..n]), changes[n]);
      var a, b := Touches(changes[..n], at[..n]), TouchesOf(changes[n], at[n]);
      EventsOfConcat(a, b);
      DoAllConcat(store, EventsOf(a), EventsOf(b));
    }
  }

  // ---- Writing rows

  function WriteRow(store: Store, row: NetRow): Store {
    if row.kind == Delete then store - {PlaceOf(row)}
    else store[PlaceOf(row) := RowAt(store, PlaceOf(row)) + row.key + row.values]
  }

  function WriteAll(store: Store, rows: seq<NetRow>): Store {
    if rows == [] then store else WriteRow(WriteAll(store, rows[..|rows| - 1]), rows[|rows| - 1])
  }

  function RowEvents(rows: seq<NetRow>): (es: seq<Event<Place, Cells>>)
    ensures |es| == |rows| && forall i :: 0 <= i < |rows| ==> es[i] == EventOf(rows[i])
  {
    seq(|rows|, i requires 0 <= i < |rows| => EventOf(rows[i]))
  }

  lemma {:induction false} WritesAreEvents(cols: map<string, set<string>>, store: Store, rows: seq<NetRow>)
    requires Within(cols, store) && forall r :: r in rows ==> Fits(cols, r)
    ensures WriteAll(store, rows) == DoAll(store, RowEvents(rows))
    ensures Within(cols, WriteAll(store, rows))
  {
    if rows != [] {
      var n := |rows| - 1;
      WritesAreEvents(cols, store, rows[..n]);
      assert RowEvents(rows)[..n] == RowEvents(rows[..n]);
      assert Fits(cols, rows[n]);
      OneWriteIsItsEvent(cols, WriteAll(store, rows[..n]), rows[n]);
    }
  }

  lemma {:induction false} OneWriteIsItsEvent(cols: map<string, set<string>>, store: Store, r: NetRow)
    requires Within(cols, store) && Fits(cols, r)
    ensures WriteRow(store, r) == Do(store, EventOf(r)) && Within(cols, WriteRow(store, r))
  {
    if r.kind == Upsert {
      assert RowAt(store, PlaceOf(r)) + r.key + r.values == r.key + r.values;
    }
  }
}
