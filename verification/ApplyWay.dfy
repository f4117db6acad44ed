// A batch of changes collapsed as columns and written as one run of each
// kind a table (`migkit/applyway.py`).
module ApplyWay {
  import opened LastEvent
  import opened Occurrences
  import opened NetRows
  import opened Changes

  const SPLIT_PASSES := 16
  const KNOWN_PLACEHOLDERS :=
    {"unchanged-toast-datum", "__debezium_unavailable_value", "__debezium_unchanged_toast_value"}

  // ---- Why a table's changes are not collapsed as columns

  datatype Why =
    | NotAChange
    | Unreadable
    | KeyedApart
    | ColumnsDiffer
    | AddsOrKeeps
    | Placeholder
    | KeyTypes

  // The types a key column is collapsed as a column of; 3 for any other.
  function KeyType(c: Cell): nat {
    match c
    case Int(_) => 0
    case Text(_) => 1
    case Bytes(_) => 2
    case _ => 3
  }

  predicate Plain(v: Cell) { !v.Added? && !v.Kept? && !v.Absent? }

  predicate Concrete(v: Cell) { v.Text? ==> v.s !in KNOWN_PLACEHOLDERS }

  predicate OpsKnown(changes: seq<Change>) { forall c :: c in changes ==> IsChange(c.op) }

  predicate OneKey(changes: seq<Change>)
    requires changes != [] && Keyed(changes)
  {
    changes[0].key.value.cols != [] && forall c :: c in changes ==> c.key.value.cols == changes[0].key.value.cols
  }

  predicate OneShape(changes: seq<Change>) {
    forall c, d :: c in changes && d in changes && Writes(c) && Writes(d) ==> Values(c).cols == Values(d).cols
  }

  predicate CellsHold(c: Change, holds: Cell -> bool) {
    Writes(c) ==> forall k :: k in Values(c).at ==> holds(Values(c).at[k])
  }

  predicate MovesReadably(c: Change)
    requires c.key.Some?
  {
    Writes(c) && Moves(c) ==> forall k :: k in c.key.value.at ==> k in Values(c).at
  }

  // What a table's changes have in common once none of the refusals holds.
  predicate Alike(changes: seq<Change>)
    requires changes != []
  {
    && OpsKnown(changes) && Keyed(changes) && OneKey(changes) && OneShape(changes)
    && (forall c :: c in changes ==> CellsHold(c, Plain))
    && (forall c :: c in changes ==> CellsHold(c, Concrete))
    && (forall c :: c in changes ==> MovesReadably(c))
  }

  // An update that moved its key is two events, a leaving and an arrival.
  datatype Flag = Stays | Leaves | Arrives

  datatype Happening = Happening(j: nat, flag: Flag)

  function HappeningsOf(c: Change, j: nat): (ev: seq<Happening>)
    requires c.key.Some?
  {
    if Writes(c) && Moves(c) then [Happening(j, Leaves), Happening(j, Arrives)] else [Happening(j, Stays)]
  }

  function Happenings(changes: seq<Change>): (ev: seq<Happening>)
    requires Keyed(changes)
    ensures forall i :: 0 <= i < |ev| ==> ev[i].j < |changes|
  {
    if changes == [] then []
    else Happenings(changes[..|changes| - 1]) + HappeningsOf(changes[|changes| - 1], |changes| - 1)
  }

  // The row an event writes.
  function RowOf(changes: seq<Change>, e: Happening): NetRow
    requires Keyed(changes) && e.j < |changes|
  {
    var c := changes[e.j];
    if e.flag == Leaves || (e.flag == Stays && c.op == "delete") then NetRow(c.table, Delete, c.key.value.at, map[])
    else if e.flag == Arrives then NetRow(c.table, Upsert, Arrival(c), Values(c).at)
    else NetRow(c.table, Upsert, c.key.value.at, Values(c).at)
  }

  function NumberOf(at: seq<nat>, e: Happening): nat
    requires e.j < |at|
  {
    2 * at[e.j] + if e.flag == Arrives then 1 else 0
  }

  function TouchOf(changes: seq<Change>, at: seq<nat>, e: Happening): Touch
    requires Keyed(changes) && |at| == |changes| && e.j < |changes|
  {
    Touch(NumberOf(at, e), RowOf(changes, e))
  }

  function TouchesBy(changes: seq<Change>, at: seq<nat>, ev: seq<Happening>): (ts: seq<Touch>)
    requires Keyed(changes) && |at| == |changes| && forall i :: 0 <= i < |ev| ==> ev[i].j < |changes|
    ensures |ts| == |ev| && forall i :: 0 <= i < |ev| ==> ts[i] == TouchOf(changes, at, ev[i])
  {
    seq(|ev|, i requires 0 <= i < |ev| => TouchOf(changes, at, ev[i]))
  }

  lemma {:induction false} TouchesByPrefix(changes: seq<Change>, at: seq<nat>, ev: seq<Happening>, n: nat)
    requires Keyed(changes) && |at| == |changes| && n <= |changes|
    requires forall i :: 0 <= i < |ev| ==> ev[i].j < n
    ensures TouchesBy(changes, at, ev) == TouchesBy(changes[..n], at[..n], ev)
  {
  }

  lemma {:induction false} TouchesByOne(changes: seq<Change>, at: seq<nat>, j: nat)
    requires Keyed(changes) && |at| == |changes| && j < |changes|
    ensures TouchesBy(changes, at, HappeningsOf(changes[j], j)) == TouchesOf(changes[j], at[j])
  {
  }

  lemma {:induction false} TouchesByConcat(changes: seq<Change>, at: seq<nat>, a: seq<Happening>, b: seq<Happening>)
    requires Keyed(changes) && |at| == |changes|
    requires forall i :: 0 <= i < |a| ==> a[i].j < |changes|
    requires forall i :: 0 <= i < |b| ==> b[i].j < |changes|
    ensures TouchesBy(changes, at, a + b) == TouchesBy(changes, at, a) + TouchesBy(changes, at, b)
  {
  }

  // The batch's events are its touches, one for one.
  lemma {:induction false} HappeningsAreTouches(changes: seq<Change>, at: seq<nat>)
    requires Keyed(changes) && |at| == |changes|
    ensures TouchesBy(changes, at, Happenings(changes)) == Touches(changes, at)
  {
    if changes != [] {
      var j := |changes| - 1;
      HappeningsAreTouches(changes[..j], at[..j]);
      var before := Happenings(changes[..j]);
      TouchesByPrefix(changes, at, before, j);
      TouchesByOne(changes, at, j);
      TouchesByConcat(changes, at, before, HappeningsOf(changes[j], j));
    }
  }

  // An event's key as a tuple of the key columns' cells, as a dictionary
  // tells them.
  function TupleOf(key: seq<string>, at: Cells): (t: seq<Cell>)
    requires forall k :: k in key ==> k in at
    ensures |t| == |key| && forall i :: 0 <= i < |key| ==> t[i] == Hashed(at[key[i]])
  {
    seq(|key|, i requires 0 <= i < |key| => Hashed(at[key[i]]))
  }

  // Values of one type are told apart where they differ; of two types, 1 and
  // true and 1.0 are not.
  predicate OneType(a: Cell, b: Cell) { KeyType(a) == KeyType(b) < 3 }

  lemma {:induction false} OneTypeTells(a: Cell, b: Cell)
    requires OneType(a, b)
    ensures Hashed(a) == Hashed(b) <==> a == b
  {
    if a.Int? {
      assert Number(a) == Number(b) ==> a.n as real == b.n as real;
    }
  }

  lemma {:induction false} TuplesTellKeysApart(key: seq<string>, a: Cells, b: Cells)
    requires forall k :: k in key <==> k in a
    requires forall k :: k in key <==> k in b
    requires forall k :: k in key ==> OneType(a[k], b[k])
    ensures TupleOf(key, a) == TupleOf(key, b) <==> a == b
  {
    var s, t := TupleOf(key, a), TupleOf(key, b);
    if s == t {
      forall k | k in a ensures a[k] == b[k] {
        var i :| 0 <= i < |key| && key[i] == k;
        assert s[i] == t[i];
        OneTypeTells(a[k], b[k]);
      }
      assert a.Keys == b.Keys;
    }
  }

  predicate TypesHold(key: seq<string>, rows: seq<NetRow>) {
    forall k, r :: k in key && r in rows ==> k in r.key && k in rows[0].key && OneType(r.key[k], rows[0].key[k])
  }

  function RowsOfAll(changes: seq<Change>): (rows: seq<NetRow>)
    requires Keyed(changes)
    ensures |rows| == |Happenings(changes)|
    ensures forall i :: 0 <= i < |rows| ==> Happenings(changes)[i].j < |changes| && rows[i] == RowOf(changes, Happenings(changes)[i])
  {
    var ev := Happenings(changes);
    seq(|ev|, i requires 0 <= i < |ev| => RowOf(changes, ev[i]))
  }

  // The refusals, in the order they are looked for.
  function TableWhy(changes: seq<Change>): (why: Option<Why>)
    requires changes != []
    ensures why.None? <==> Alike(changes) && TypesHold(changes[0].key.value.cols, RowsOfAll(changes))
  {
    if !OpsKnown(changes) then Some(NotAChange)
    else if !Keyed(changes) then Some(Unreadable)
    else if !OneKey(changes) then Some(KeyedApart)
    else if !OneShape(changes) then Some(ColumnsDiffer)
    else if exists c :: c in changes && !CellsHold(c, Plain) then Some(AddsOrKeeps)
    else if exists c :: c in changes && !CellsHold(c, Concrete) then Some(Placeholder)
    else if exists c :: c in changes && !MovesReadably(c) then Some(Unreadable)
    else if !TypesHold(changes[0].key.value.cols, RowsOfAll(changes)) then Some(KeyTypes)
    else None
  }

  // ---- Each key's first touch and last row, found by maps

  // `RowsBy` takes, for each key in the order keys are first touched, the
  // number of its first touch and the row of its last.
  function RowsBy<K(==,!new)>(ts: seq<Touch>, keys: seq<K>): (rows: seq<Touch>)
    requires |keys| == |ts|
    ensures |rows| == |FirstTouched(keys)|
    ensures forall i :: 0 <= i < |rows| ==> rows[i] == RowBy(ts, keys, FirstTouched(keys)[i])
  {
    var order := FirstTouched(keys);
    seq(|order|, i requires 0 <= i < |order| => RowBy(ts, keys, order[i]))
  }

  function RowBy<K(==,!new)>(ts: seq<Touch>, keys: seq<K>, k: K): Touch
    requires |keys| == |ts| && k in keys
  {
    Touch(ts[FirstAt(keys)[k]].number, ts[LastAt(keys)[k]].row)
  }

  ghost predicate KeysTellPlaces<K>(ts: seq<Touch>, keys: seq<K>) {
    |keys| == |ts| &&
    forall i, j :: 0 <= i < |ts| && 0 <= j < |ts| ==> (keys[i] == keys[j] <==> PlaceOf(ts[i].row) == PlaceOf(ts[j].row))
  }

  lemma {:induction false} RowByGrows<K(!new)>(ts: seq<Touch>, keys: seq<K>, x: Touch, k: K, was: K)
    requires |keys| == |ts| && was in keys
    ensures was in keys + [k]
    ensures RowBy(ts + [x], keys + [k], was)
         == Touch(RowBy(ts, keys, was).number, if was == k then x.row else RowBy(ts, keys, was).row)
  {
    assert (keys + [k])[..|keys|] == keys;
    FirstAtGrows(keys + [k], was);
    assert IsFirst(keys, 0, was, FirstAt(keys)[was]);
    assert IsLast(keys, was, LastAt(keys)[was]);
  }

  lemma {:induction false} RowByNew<K(!new)>(ts: seq<Touch>, keys: seq<K>, x: Touch, k: K)
    requires |keys| == |ts| && k !in keys
    ensures k in keys + [k] && RowBy(ts + [x], keys + [k], k) == x
  {
    assert (keys + [k])[..|keys|] == keys;
    assert (keys + [k])[|keys|] == k;
    assert forall i :: 0 <= i < |keys| ==> keys[i] in keys && (keys + [k])[i] != k;
    assert IsFirst(keys + [k], 0, k, FirstAt(keys + [k])[k]);
  }

  lemma {:induction false} FirstTouchedGrows<K(!new)>(keys: seq<K>, k: K)
    ensures FirstTouched(keys + [k]) == if k in keys then FirstTouched(keys) else FirstTouched(keys) + [k]
  {
    assert (keys + [k])[..|keys|] == keys;
  }

  // One more touch, of a key seen before: its row takes over.
  lemma {:induction false} RowsBySeen<K(!new)>(ts: seq<Touch>, keys: seq<K>, x: Touch, k: K, at: nat)
    requires |keys| == |ts| && at < |FirstTouched(keys)| && FirstTouched(keys)[at] == k
    ensures RowsBy(ts + [x], keys + [k]) == RowsBy(ts, keys)[at := Touch(RowsBy(ts, keys)[at].number, x.row)]
  {
    var order := FirstTouched(keys);
    FirstTouchedGrows(keys, k);
    assert k in order;
    forall i | 0 <= i < |order|
      ensures RowsBy(ts + [x], keys + [k])[i] == if i == at then Touch(RowsBy(ts, keys)[i].number, x.row) else RowsBy(ts, keys)[i]
    {
      RowsBySeenAt(ts, keys, x, k, at, i);
    }
  }

  lemma {:induction false} RowsBySeenAt<K(!new)>(ts: seq<Touch>, keys: seq<K>, x: Touch, k: K, at: nat, i: nat)
    requires |keys| == |ts| && at < |FirstTouched(keys)| && FirstTouched(keys)[at] == k && i < |FirstTouched(keys)|
    requires FirstTouched(keys + [k]) == FirstTouched(keys)
    ensures RowsBy(ts + [x], keys + [k])[i] == if i == at then Touch(RowsBy(ts, keys)[i].number, x.row) else RowsBy(ts, keys)[i]
  {
    var was := FirstTouched(keys)[i];
    assert was in FirstTouched(keys);
    assert was == k <==> i == at;
    RowByGrows(ts, keys, x, k, was);
    assert RowsBy(ts, keys)[i] == RowBy(ts, keys, was);
    assert RowsBy(ts + [x], keys + [k])[i] == RowBy(ts + [x], keys + [k], was);
  }

  lemma {:induction false} RowsByUnseenAt<K(!new)>(ts: seq<Touch>, keys: seq<K>, x: Touch, k: K, i: nat)
    requires |keys| == |ts| && k !in keys && i <= |FirstTouched(keys)|
    ensures FirstTouched(keys + [k]) == FirstTouched(keys) + [k]
    ensures RowsBy(ts + [x], keys + [k])[i] == (RowsBy(ts, keys) + [x])[i]
  {
    FirstTouchedGrows(keys, k);
    if i < |FirstTouched(keys)| {
      var was := FirstTouched(keys)[i];
      assert was in FirstTouched(keys);
      RowByGrows(ts, keys, x, k, was);
    } else {
      RowByNew(ts, keys, x, k);
    }
  }

  // One more touch, of a key not seen before: its row comes last.
  lemma {:induction false} RowsByUnseen<K(!new)>(ts: seq<Touch>, keys: seq<K>, x: Touch, k: K)
    requires |keys| == |ts| && k !in keys
    ensures RowsBy(ts + [x], keys + [k]) == RowsBy(ts, keys) + [x]
  {
    FirstTouchedGrows(keys, k);
    forall i | 0 <= i <= |FirstTouched(keys)| ensures RowsBy(ts + [x], keys + [k])[i] == (RowsBy(ts, keys) + [x])[i] {
      RowsByUnseenAt(ts, keys, x, k, i);
    }
  }

  // A row found for a key is a touch of that key.
  lemma {:induction false} RowByAt<K(!new)>(ts: seq<Touch>, keys: seq<K>, k: K) returns (l: nat)
    requires |keys| == |ts| && k in keys
    ensures l < |ts| && keys[l] == k && RowBy(ts, keys, k).row == ts[l].row
  {
    l := LastAt(keys)[k];
    assert IsLast(keys, k, l);
  }

  // What the maps find is the net.
  lemma {:induction false} RowsByIsNet<K(!new)>(ts: seq<Touch>, keys: seq<K>)
    requires KeysTellPlaces(ts, keys)
    ensures RowsBy(ts, keys) == Net(ts)
  {
    if ts != [] {
      var n := |ts| - 1;
      var ts', keys', x, k := ts[..n], keys[..n], ts[n], keys[n];
      assert ts == ts' + [x] && keys == keys' + [k];
      RowsByIsNet(ts', keys');
      var net, order := Net(ts'), FirstTouched(keys');
      NetDistinct(ts');
      if k in keys' {
        assert k in order;
        var at :| 0 <= at < |order| && order[at] == k;
        var l := RowByAt(ts', keys', k);
        assert ts[l] == ts'[l] && keys[l] == keys[n];
        SettleAt(net, x, at);
        RowsBySeen(ts', keys', x, k, at);
      } else {
        forall i | 0 <= i < |net| ensures PlaceOf(net[i].row) != PlaceOf(x.row) {
          assert order[i] in order;
          var l := RowByAt(ts', keys', order[i]);
          assert ts[l] == ts'[l] && keys[l] != keys[n];
        }
        SettleNew(net, x);
        RowsByUnseen(ts', keys', x, k);
      }
    }
  }

  // ---- One table

  datatype Outcome<+T> = Refused(why: Why) | Taken(value: T)

  datatype TableNet = TableNet(table: string, key: seq<string>, names: set<string>, rows: seq<Touch>)

  lemma {:induction false} RowIsKeyed(changes: seq<Change>, e: Happening)
    requires changes != [] && Alike(changes) && e.j < |changes|
    ensures forall k :: k in changes[0].key.value.cols <==> k in RowOf(changes, e).key
  {
    var c := changes[e.j];
    assert c in changes;
    assert RowOf(changes, e).key.Keys == c.key.value.at.Keys;
  }

  // An event's key, as its key columns hold it.
  function KeyTuple(changes: seq<Change>, e: Happening): seq<Cell>
    requires changes != [] && Alike(changes) && e.j < |changes|
  {
    RowIsKeyed(changes, e);
    TupleOf(changes[0].key.value.cols, RowOf(changes, e).key)
  }

  function KeyTuples(changes: seq<Change>): (keys: seq<seq<Cell>>)
    requires changes != [] && Alike(changes)
    ensures |keys| == |Happenings(changes)|
    ensures forall i :: 0 <= i < |keys| ==> keys[i] == KeyTuple(changes, Happenings(changes)[i])
  {
    var ev := Happenings(changes);
    seq(|ev|, i requires 0 <= i < |ev| => KeyTuple(changes, ev[i]))
  }

  lemma {:induction false} KeyTuplesTell(changes: seq<Change>, e: Happening, f: Happening)
    requires changes != [] && Alike(changes) && e.j < |changes| && f.j < |changes|
    requires TypesHold(changes[0].key.value.cols, [RowOf(changes, e), RowOf(changes, f)])
    ensures KeyTuple(changes, e) == KeyTuple(changes, f) <==> RowOf(changes, e).key == RowOf(changes, f).key
  {
    RowIsKeyed(changes, e);
    RowIsKeyed(changes, f);
    assert RowOf(changes, f) in [RowOf(changes, e), RowOf(changes, f)];
    TuplesTellKeysApart(changes[0].key.value.cols, RowOf(changes, e).key, RowOf(changes, f).key);
  }

  lemma {:induction false} TypesHoldOfTwo(key: seq<string>, rows: seq<NetRow>, i: nat, j: nat)
    requires TypesHold(key, rows) && i < |rows| && j < |rows|
    ensures TypesHold(key, [rows[i], rows[j]])
  {
    assert rows[i] in rows && rows[j] in rows;
    var two := [rows[i], rows[j]];
    forall k, r | k in key && r in two
      ensures k in r.key && k in two[0].key && OneType(r.key[k], two[0].key[k])
    {
      assert r in rows;
    }
  }

  lemma {:induction false} TuplesTellAt(table: string, changes: seq<Change>, at: seq<nat>, i: nat, j: nat)
    requires changes != [] && Alike(changes) && |at| == |changes| && forall c :: c in changes ==> c.table == table
    requires TypesHold(changes[0].key.value.cols, RowsOfAll(changes))
    requires |KeyTuples(changes)| == |Touches(changes, at)| && i < |KeyTuples(changes)| && j < |KeyTuples(changes)|
    ensures KeyTuples(changes)[i] == KeyTuples(changes)[j]
       <==> PlaceOf(Touches(changes, at)[i].row) == PlaceOf(Touches(changes, at)[j].row)
  {
    HappeningsAreTouches(changes, at);
    var e, f := Happenings(changes)[i], Happenings(changes)[j];
    assert Touches(changes, at)[i] == TouchOf(changes, at, e) && Touches(changes, at)[j] == TouchOf(changes, at, f);
    assert RowOf(changes, e).table == changes[e.j].table == table;
    assert RowOf(changes, f).table == changes[f.j].table == table;
    TypesHoldOfTwo(changes[0].key.value.cols, RowsOfAll(changes), i, j);
    KeyTuplesTell(changes, e, f);
  }

  lemma {:induction false} TuplesTellPlaces(table: string, changes: seq<Change>, at: seq<nat>)
    requires changes != [] && Alike(changes) && |at| == |changes| && forall c :: c in changes ==> c.table == table
    requires TypesHold(changes[0].key.value.cols, RowsOfAll(changes))
    ensures KeysTellPlaces(Touches(changes, at), KeyTuples(changes))
  {
    HappeningsAreTouches(changes, at);
    var ts, keys := Touches(changes, at), KeyTuples(changes);
    assert |keys| == |ts|;
    forall i, j | 0 <= i < |ts| && 0 <= j < |ts|
      ensures keys[i] == keys[j] <==> PlaceOf(ts[i].row) == PlaceOf(ts[j].row)
    {
      TuplesTellAt(table, changes, at, i, j);
    }
  }

  // The names of every column written: the key's and, where the table is
  // written to, the one shape its values have.
  method NamesOf(changes: seq<Change>) returns (names: set<string>)
    requires changes != [] && Alike(changes)
    ensures forall c :: c in changes && Writes(c) ==> names == Names(c)
  {
    var shape := {};
    for i := 0 to |changes|
      invariant forall j :: 0 <= j < i && Writes(changes[j]) ==> shape == Values(changes[j]).at.Keys
    {
      if Writes(changes[i]) {
        assert forall j :: 0 <= j < i && Writes(changes[j]) ==> Values(changes[j]).cols == Values(changes[i]).cols;
        shape := Values(changes[i]).at.Keys;
      }
    }
    names := changes[0].key.value.at.Keys + shape;
    forall c | c in changes && Writes(c) ensures names == Names(c) {
      assert c.key.value.cols == changes[0].key.value.cols;
      assert c.key.value.at.Keys == changes[0].key.value.at.Keys;
    }
  }

  // The rows, key by key in the order keys are first touched: the number of
  // the first touch, the row of the last.
  method CollectRows<K(==,!new)>(changes: seq<Change>, at: seq<nat>, ev: seq<Happening>, keys: seq<K>) returns (rows: seq<Touch>)
    requires Keyed(changes) && |at| == |changes| && |keys| == |ev|
    requires forall i :: 0 <= i < |ev| ==> ev[i].j < |changes|
    ensures rows == RowsBy(TouchesBy(changes, at, ev), keys)
  {
    var last, first := LastAt(keys), FirstAt(keys);
    var order := FirstTouched(keys);
    ghost var ts := TouchesBy(changes, at, ev);
    rows := [];
    for i := 0 to |order|
      invariant |rows| == i && forall r :: 0 <= r < i ==> rows[r] == RowBy(ts, keys, order[r])
    {
      var k := order[i];
      assert k in order;
      assert IsLast(keys, k, last[k]) && IsFirst(keys, 0, k, first[k]);
      rows := rows + [Touch(NumberOf(at, ev[first[k]]), RowOf(changes, ev[last[k]]))];
    }
  }
}
