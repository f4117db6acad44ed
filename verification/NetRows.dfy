// The rows a batch touches, and what is left once each place is settled to
// its last touch (`migkit/applyway.py`).
module NetRows {
  import opened LastEvent

  // A value in a column: one to write, no value at all, an addition to what
  // the row holds - with what to write where there is no row - or what the
  // row holds kept. Equality here is the equality of two values of one type;
  // `Same` is the source language's, which also equates numbers of different
  // types.
  datatype Cell =
    | Int(n: int)
    | Text(s: string)
    | Bytes(b: seq<nat>)
    | Truth(t: bool)
    | Fraction(r: real)
    | Null
    | Absent
    | Added(more: int, to: Cell)
    | Kept(to: Cell)

  function Number(c: Cell): Option<real> {
    match c
    case Int(n) => Some(n as real)
    case Truth(t) => Some(if t then 1.0 else 0.0)
    case Fraction(r) => Some(r)
    case _ => None
  }

  predicate Same(a: Cell, b: Cell) {
    if Number(a).Some? && Number(b).Some? then Number(a) == Number(b) else a == b
  }

  // What a dictionary tells two values by: the same for values that are equal
  // there.
  function Hashed(c: Cell): Cell {
    if Number(c).Some? then Fraction(Number(c).value) else c
  }

  lemma {:induction false} HashedTells(a: Cell, b: Cell)
    ensures Hashed(a) == Hashed(b) <==> Same(a, b)
  {
  }

  type Cells = map<string, Cell>

  datatype Kind = Delete | Upsert

  datatype NetRow = NetRow(table: string, kind: Kind, key: Cells, values: Cells)

  datatype Place = Place(table: string, key: Cells)

  // A row to write, and the number of the touch that brought it up.
  datatype Touch = Touch(number: nat, row: NetRow)

  function PlaceOf(row: NetRow): Place { Place(row.table, row.key) }

  // `x` settles its place: it takes over the row there, keeping the number
  // the place was first touched at, or comes last as a place of its own.
  function Settle(net: seq<Touch>, x: Touch): seq<Touch> {
    if net == [] then [x]
    else if PlaceOf(net[0].row) == PlaceOf(x.row) then [Touch(net[0].number, x.row)] + net[1..]
    else [net[0]] + Settle(net[1..], x)
  }

  // One row a place, in the order the places were first touched, each what
  // the last touch of its place left.
  function Net(ts: seq<Touch>): seq<Touch> {
    if ts == [] then [] else Settle(Net(ts[..|ts| - 1]), ts[|ts| - 1])
  }

  function InTable(ts: seq<Touch>, table: string): seq<Touch> {
    if ts == [] then []
    else (if ts[0].row.table == table then [ts[0]] else []) + InTable(ts[1..], table)
  }

  ghost predicate DistinctPlaces(ts: seq<Touch>) {
    forall i, j :: 0 <= i < j < |ts| ==> PlaceOf(ts[i].row) != PlaceOf(ts[j].row)
  }

  // Numbers strictly ascending.
  ghost predicate Ascending(ts: seq<Touch>) {
    forall i, j :: 0 <= i < j < |ts| ==> ts[i].number < ts[j].number
  }

  // ---- Settle, place by place

  lemma {:induction false} SettleNew(net: seq<Touch>, x: Touch)
    requires forall i :: 0 <= i < |net| ==> PlaceOf(net[i].row) != PlaceOf(x.row)
    ensures Settle(net, x) == net + [x]
  {
    if net != [] {
      SettleNew(net[1..], x);
    }
  }

  lemma {:induction false} SettleAt(net: seq<Touch>, x: Touch, at: nat)
    requires DistinctPlaces(net) && at < |net| && PlaceOf(net[at].row) == PlaceOf(x.row)
    ensures Settle(net, x) == net[at := Touch(net[at].number, x.row)]
  {
    if at > 0 {
      assert PlaceOf(net[0].row) != PlaceOf(net[at].row);
      SettleAt(net[1..], x, at - 1);
    }
  }

  // Settling finds the place or adds it.
  lemma {:induction false} SettleCases(net: seq<Touch>, x: Touch) returns (at: nat)
    requires DistinctPlaces(net)
    ensures at <= |net|
    ensures at < |net| ==> PlaceOf(net[at].row) == PlaceOf(x.row) && Settle(net, x) == net[at := Touch(net[at].number, x.row)]
    ensures at == |net| ==> Settle(net, x) == net + [x]
    ensures at == |net| ==> forall i :: 0 <= i < |net| ==> PlaceOf(net[i].row) != PlaceOf(x.row)
  {
    if i :| 0 <= i < |net| && PlaceOf(net[i].row) == PlaceOf(x.row) {
      SettleAt(net, x, i);
      at := i;
    } else {
      SettleNew(net, x);
      at := |net|;
    }
  }

  lemma {:induction false} NetDistinct(ts: seq<Touch>)
    ensures DistinctPlaces(Net(ts))
  {
    if ts != [] {
      NetDistinct(ts[..|ts| - 1]);
      var at := SettleCases(Net(ts[..|ts| - 1]), ts[|ts| - 1]);
    }
  }

  // Settling keeps first-touch numbers, so the net stays in their order.
  lemma {:induction false} NetAscending(ts: seq<Touch>)
    requires Ascending(ts)
    ensures Ascending(Net(ts))
    ensures forall i :: 0 <= i < |Net(ts)| ==> exists j :: 0 <= j < |ts| && ts[j].number == Net(ts)[i].number
  {
    if ts != [] {
      var before, x := ts[..|ts| - 1], ts[|ts| - 1];
      NetAscending(before);
      NetDistinct(before);
      var at := SettleCases(Net(before), x);
      forall i | 0 <= i < |Net(ts)| ensures exists j :: 0 <= j < |ts| && ts[j].number == Net(ts)[i].number {
        if i < |Net(before)| {
          var j :| 0 <= j < |before| && before[j].number == Net(before)[i].number;
          assert ts[j].number == Net(ts)[i].number;
        } else {
          assert ts[|ts| - 1].number == Net(ts)[i].number;
        }
      }
    }
  }

  // ---- One table's part

  lemma {:induction false} InTableConcat(a: seq<Touch>, b: seq<Touch>, table: string)
    ensures InTable(a + b, table) == InTable(a, table) + InTable(b, table)
  {
    if a == [] {
      assert a + b == b;
    } else {
      var rest, here := a[1..], if a[0].row.table == table then [a[0]] else [];
      InTableConcat(rest, b, table);
      assert a + b == [a[0]] + (rest + b);
      InTableCons(a[0], rest + b, table);
      Regrouped(here, InTable(rest, table), InTable(b, table));
    }
  }

  lemma {:induction false} InTableCons(x: Touch, ts: seq<Touch>, table: string)
    ensures InTable([x] + ts, table) == (if x.row.table == table then [x] else []) + InTable(ts, table)
  {
    assert ([x] + ts)[1..] == ts;
  }

  lemma {:induction false} Regrouped<T>(a: seq<T>, b: seq<T>, c: seq<T>)
    ensures a + (b + c) == a + b + c
  {
  }

  lemma {:induction false} InTableHas(ts: seq<Touch>, table: string, x: Touch)
    ensures x in InTable(ts, table) <==> x in ts && x.row.table == table
  {
    if ts != [] {
      InTableHas(ts[1..], table, x);
    }
  }

  lemma {:induction false} InTableAscending(ts: seq<Touch>, table: string)
    requires Ascending(ts)
    ensures Ascending(InTable(ts, table))
  {
    if ts != [] {
      InTableAscending(ts[1..], table);
      forall x | x in InTable(ts[1..], table) ensures ts[0].number < x.number {
        InTableHas(ts[1..], table, x);
        var i :| 0 <= i < |ts[1..]| && ts[1..][i] == x;
        assert ts[i + 1] == x;
      }
    }
  }

  lemma {:induction false} SettleInTable(net: seq<Touch>, x: Touch, table: string)
    ensures InTable(Settle(net, x), table)
         == if x.row.table == table then Settle(InTable(net, table), x) else InTable(net, table)
  {
    if net == [] {
    } else if PlaceOf(net[0].row) == PlaceOf(x.row) {
    } else {
      SettleInTable(net[1..], x, table);
      assert ([net[0]] + Settle(net[1..], x))[1..] == Settle(net[1..], x);
      var here := if net[0].row.table == table then [net[0]] else [];
      if here != [] {
        assert (here + InTable(net[1..], table))[1..] == InTable(net[1..], table);
      } else {
        assert here + InTable(net[1..], table) == InTable(net[1..], table);
        assert here + InTable(Settle(net[1..], x), table) == InTable(Settle(net[1..], x), table);
      }
    }
  }

  // Collapsing a table on its own is collapsing everything and looking at
  // that table.
  lemma {:induction false} NetInTable(ts: seq<Touch>, table: string)
    ensures Net(InTable(ts, table)) == InTable(Net(ts), table)
  {
    if ts != [] {
      var before, x := ts[..|ts| - 1], ts[|ts| - 1];
      NetInTable(before, table);
      SettleInTable(Net(before), x, table);
      assert ts == before + [x];
      InTableConcat(before, [x], table);
      if x.row.table == table {
        assert InTable(ts, table) == InTable(before, table) + [x];
        assert InTable(ts, table)[..|InTable(ts, table)| - 1] == InTable(before, table);
      } else {
        assert InTable(ts, table) == InTable(before, table);
      }
    }
  }

  // ---- What a table of rows holds afterwards

  type Store = map<Place, Cells>

  // A deleted row is gone; an upserted one is its key overlaid with its values.
  function EventOf(row: NetRow): Event<Place, Cells> {
    Event(PlaceOf(row), if row.kind == Delete then None else Some(row.key + row.values))
  }

  function EventsOf(ts: seq<Touch>): (es: seq<Event<Place, Cells>>)
    ensures |es| == |ts| && forall i :: 0 <= i < |ts| ==> es[i] == EventOf(ts[i].row)
  {
    seq(|ts|, i requires 0 <= i < |ts| => EventOf(ts[i].row))
  }

  lemma {:induction false} SettleLast(net: seq<Touch>, x: Touch, p: Place)
    requires DistinctPlaces(net)
    ensures LastLeft(EventsOf(Settle(net, x)), p)
         == if p == PlaceOf(x.row) then Some(EventOf(x.row).left) else LastLeft(EventsOf(net), p)
  {
    var at := SettleCases(net, x);
    var es, fs := EventsOf(net), EventsOf(Settle(net, x));
    if at == |net| {
      assert fs == es + [EventOf(x.row)];
      assert fs[..|fs| - 1] == es;
    } else {
      assert DistinctKeys(fs);
      if p == PlaceOf(x.row) {
        OnlyIsLast(fs, at);
      } else {
        LastLeftTouched(es, p);
        LastLeftTouched(fs, p);
        if i :| 0 <= i < |es| && es[i].key == p {
          OnlyIsLast(es, i);
          OnlyIsLast(fs, i);
        }
      }
    }
  }

  lemma {:induction false} NetLast(ts: seq<Touch>, p: Place)
    ensures LastLeft(EventsOf(Net(ts)), p) == LastLeft(EventsOf(ts), p)
  {
    if ts != [] {
      var before, x := ts[..|ts| - 1], ts[|ts| - 1];
      NetLast(before, p);
      NetDistinct(before);
      SettleLast(Net(before), x, p);
      assert EventsOf(ts)[..|ts| - 1] == EventsOf(before);
    }
  }

  // Writing the net leaves any store as writing every touch would.
  lemma {:induction false} NetLeavesTheSame(store: Store, ts: seq<Touch>)
    ensures DoAll(store, EventsOf(Net(ts))) == DoAll(store, EventsOf(ts))
  {
    forall p ensures LastLeft(EventsOf(Net(ts)), p) == LastLeft(EventsOf(ts), p) {
      NetLast(ts, p);
    }
    SameLastSameTable(store, EventsOf(Net(ts)), EventsOf(ts));
  }

  // ---- Lists in order of their numbers

  lemma {:induction false} HasFirst(a: seq<Touch>)
    requires a != []
    ensures exists x :: x in a
  {
    assert a[0] in a;
  }

  lemma {:induction false} SameMembersSameOrder(a: seq<Touch>, b: seq<Touch>)
    requires Ascending(a) && Ascending(b)
    requires forall x :: x in a <==> x in b
    ensures a == b
  {
    if a == [] {
      if b != [] { HasFirst(b); }
    } else {
      assert a[0] in b;
      assert b != [] && b[0] in a;
      var i :| 0 <= i < |b| && b[i] == a[0];
      var j :| 0 <= j < |a| && a[j] == b[0];
      assert a[0] == b[0];
      forall x ensures x in a[1..] <==> x in b[1..] {
        if x in a[1..] {
          var k :| 0 <= k < |a[1..]| && a[1..][k] == x;
          assert a[k + 1] == x && x in b && x != b[0];
        }
        if x in b[1..] {
          var k :| 0 <= k < |b[1..]| && b[1..][k] == x;
          assert b[k + 1] == x && x in a && x != a[0];
        }
      }
      SameMembersSameOrder(a[1..], b[1..]);
    }
  }
}
