// A batch merged to one change per key, held to the same batch applied in
// commit order, on rows that may share a key (`migkit/apply_contract.py`).
module NetMerge {
  import opened LastEvent

  datatype Value = Null | Val(text: string)

  // A row by its columns; a column that is not there reads as null.
  type Cells = map<string, Value>

  datatype Op = Insert | Delete | Update

  datatype Change = Change(table: string, op: Op, key: Cells, matching: Cells, values: Cells, single: bool)

  function Get(r: Cells, c: string): Value { if c in r then r[c] else Null }

  predicate Hit(r: Cells, on: Cells) { forall c :: c in on ==> Get(r, c) == on[c] }

  // ---- In commit order

  function Which(c: Change): Cells { if c.key != map[] then c.key else c.matching }

  function Dropped(rows: seq<Cells>, on: Cells, single: bool, done: bool): seq<Cells> {
    if rows == [] then []
    else if Hit(rows[0], on) && !(single && done) then Dropped(rows[1..], on, single, true)
    else [rows[0]] + Dropped(rows[1..], on, single, done)
  }

  function Updated(rows: seq<Cells>, on: Cells, values: Cells, single: bool, done: bool): seq<Cells> {
    if rows == [] then []
    else if Hit(rows[0], on) && !(single && done) then [rows[0] + values] + Updated(rows[1..], on, values, single, true)
    else [rows[0]] + Updated(rows[1..], on, values, single, done)
  }

  function Applied(rows: seq<Cells>, c: Change): seq<Cells> {
    match c.op
    case Insert => rows + [c.values]
    case Delete => Dropped(rows, Which(c), c.single, false)
    case Update => Updated(rows, Which(c), c.values, c.single, false)
  }

  function AllApplied(rows: seq<Cells>, cs: seq<Change>): seq<Cells> {
    if cs == [] then rows else Applied(AllApplied(rows, cs[..|cs| - 1]), cs[|cs| - 1])
  }

  // ---- Merged by key

  function RawKey(c: Change): Cells { if c.key != map[] then c.key else if c.matching != map[] then c.matching else c.values }

  function NetOne(c: Change): Event<Cells, Cells> {
    Event(RawKey(c), if c.op == Delete then None else Some(RawKey(c) + c.values))
  }

  function NetEvents(cs: seq<Change>): (es: seq<Event<Cells, Cells>>)
    ensures |es| == |cs| && forall i :: 0 <= i < |es| ==> es[i] == NetOne(cs[i])
  {
    seq(|cs|, i requires 0 <= i < |cs| => NetOne(cs[i]))
  }

  function Misses(rows: seq<Cells>, on: Cells): (r: seq<Cells>) {
    if rows == [] then [] else (if Hit(rows[0], on) then [] else [rows[0]]) + Misses(rows[1..], on)
  }

  function Overlaid(rows: seq<Cells>, on: Cells, values: Cells): seq<Cells> {
    if rows == [] then [] else [if Hit(rows[0], on) then rows[0] + values else rows[0]] + Overlaid(rows[1..], on, values)
  }

  function Merged(rows: seq<Cells>, e: Event<Cells, Cells>, unique: bool): seq<Cells> {
    if e.left == None then Misses(rows, e.key)
    else if unique && exists r :: r in rows && Hit(r, e.key) then Overlaid(rows, e.key, e.left.value)
    else rows + [e.left.value]
  }

  function AllMerged(rows: seq<Cells>, net: seq<Event<Cells, Cells>>, unique: bool): seq<Cells> {
    if net == [] then rows else Merged(AllMerged(rows, net[..|net| - 1], unique), net[|net| - 1], unique)
  }

  // The last change of each key, at the place of its first.
  method Collapse(cs: seq<Change>) returns (net: seq<Event<Cells, Cells>>)
    ensures DistinctKeys(net) && forall k :: LastLeft(net, k) == LastLeft(NetEvents(cs), k)
  {
    net := [];
    var at: map<Cells, nat> := map[];
    for i := 0 to |cs|
      invariant DistinctKeys(net) && forall k :: LastLeft(net, k) == LastLeft(NetEvents(cs[..i]), k)
      invariant forall k :: k in at ==> at[k] < |net| && net[at[k]].key == k
      invariant forall j :: 0 <= j < |net| ==> net[j].key in at && at[net[j].key] == j
    {
      var e := NetOne(cs[i]);
      NetOneMore(cs, i);
      if e.key in at {
        SetAt(net, at[e.key], e);
        net := net[at[e.key] := e];
      } else {
        NotThere(net, e);
        at, net := at[e.key := |net|], net + [e];
      }
    }
    assert cs[..|cs|] == cs;
  }

  lemma {:induction false} DroppedNext(rows: seq<Cells>, i: nat, kept: seq<Cells>, on: Cells, single: bool, done: bool)
    requires i < |rows|
    ensures var hit := Hit(rows[i], on) && !(single && done);
            kept + Dropped(rows[i..], on, single, done)
            == (if hit then kept else kept + [rows[i]]) + Dropped(rows[i + 1..], on, single, done || hit)
  {
    assert rows[i..][1..] == rows[i + 1..];
  }

  method DropHits(rows: seq<Cells>, on: Cells, single: bool) returns (kept: seq<Cells>)
    ensures kept == Dropped(rows, on, single, false)
  {
    kept := [];
    var removed := false;
    for i := 0 to |rows|
      invariant kept + Dropped(rows[i..], on, single, removed) == Dropped(rows, on, single, false)
    {
      DroppedNext(rows, i, kept, on, single, removed);
      if Hit(rows[i], on) && !(single && removed) {
        removed := true;
      } else {
        kept := kept + [rows[i]];
      }
    }
  }

  lemma {:induction false} UpdatedNext(rows: seq<Cells>, i: nat, now: seq<Cells>, on: Cells, values: Cells, single: bool, done: bool)
    requires i < |rows|
    ensures var hit := Hit(rows[i], on) && !(single && done);
            now + Updated(rows[i..], on, values, single, done)
            == now + [if hit then rows[i] + values else rows[i]] + Updated(rows[i + 1..], on, values, single, done || hit)
  {
    assert rows[i..][1..] == rows[i + 1..];
  }

  method UpdateHits(rows: seq<Cells>, on: Cells, values: Cells, single: bool) returns (now: seq<Cells>)
    ensures now == Updated(rows, on, values, single, false)
  {
    now := [];
    var updated := false;
    for i := 0 to |rows|
      invariant now + Updated(rows[i..], on, values, single, updated) == Updated(rows, on, values, single, false)
    {
      UpdatedNext(rows, i, now, on, values, single, updated);
      if Hit(rows[i], on) && !(single && updated) {
        now, updated := now + [rows[i] + values], true;
      } else {
        now := now + [rows[i]];
      }
    }
  }

  method ApplyInOrder(rows: seq<Cells>, cs: seq<Change>) returns (now: seq<Cells>)
    ensures now == AllApplied(rows, cs)
  {
    now := rows;
    for i := 0 to |cs|
      invariant now == AllApplied(rows, cs[..i])
    {
      assert cs[..i + 1][..i] == cs[..i];
      match cs[i].op
      case Insert => now := now + [cs[i].values];
      case Delete => now := DropHits(now, Which(cs[i]), cs[i].single);
      case Update => now := UpdateHits(now, Which(cs[i]), cs[i].values, cs[i].single);
    }
    assert cs[..|cs|] == cs;
  }

  // Collapsed, and each key's last change put in.
  method MergeByKey(rows: seq<Cells>, cs: seq<Change>, unique: bool) returns (now: seq<Cells>, net: seq<Event<Cells, Cells>>)
    ensures IsNet(cs, net) && now == AllMerged(rows, net, unique)
  {
    net := Collapse(cs);
    now := rows;
    for i := 0 to |net|
      invariant now == AllMerged(rows, net[..i], unique)
    {
      assert net[..i + 1][..i] == net[..i];
      now := MergeOne(now, net[i], unique);
    }
    assert net[..|net|] == net;
  }

  method MergeOne(rows: seq<Cells>, e: Event<Cells, Cells>, unique: bool) returns (now: seq<Cells>)
    ensures now == Merged(rows, e, unique)
  {
    if e.left == None {
      return Misses(rows, e.key);
    }
    var matched := false;
    if unique {
      now, matched := OverlayHits(rows, e.key, e.left.value);
    }
    if !matched {
      now := rows + [e.left.value];
    }
  }

  method OverlayHits(rows: seq<Cells>, on: Cells, values: Cells) returns (now: seq<Cells>, matched: bool)
    ensures now == Overlaid(rows, on, values) && (matched <==> exists r :: r in rows && Hit(r, on))
  {
    now, matched := [], false;
    for i := 0 to |rows|
      invariant now + Overlaid(rows[i..], on, values) == Overlaid(rows, on, values)
      invariant matched <==> exists j :: 0 <= j < i && Hit(rows[j], on)
    {
      OverlaidNext(rows, i, now, on, values);
      if Hit(rows[i], on) {
        now, matched := now + [rows[i] + values], true;
      } else {
        now := now + [rows[i]];
      }
    }
  }

  lemma {:induction false} OverlaidNext(rows: seq<Cells>, i: nat, now: seq<Cells>, on: Cells, values: Cells)
    requires i < |rows|
    ensures now + Overlaid(rows[i..], on, values)
            == now + [if Hit(rows[i], on) then rows[i] + values else rows[i]] + Overlaid(rows[i + 1..], on, values)
  {
    assert rows[i..][1..] == rows[i + 1..];
  }

  lemma {:induction false} NetOneMore(cs: seq<Change>, i: nat)
    requires i < |cs|
    ensures NetEvents(cs[..i + 1]) == NetEvents(cs[..i]) + [NetOne(cs[i])]
    ensures forall k :: LastLeft(NetEvents(cs[..i + 1]), k)
                        == if k == NetOne(cs[i]).key then Some(NetOne(cs[i]).left) else LastLeft(NetEvents(cs[..i]), k)
  {
    assert cs[..i + 1][..i] == cs[..i];
    var es := NetEvents(cs[..i + 1]);
    assert es == NetEvents(cs[..i]) + [NetOne(cs[i])];
    NotLast(NetEvents(cs[..i]), NetOne(cs[i]));
  }

  lemma {:induction false} NotLast(es: seq<Event<Cells, Cells>>, e: Event<Cells, Cells>)
    ensures forall k :: LastLeft(es + [e], k) == if k == e.key then Some(e.left) else LastLeft(es, k)
  {
    assert (es + [e])[..|es|] == es;
  }

  lemma {:induction false} LastOfDistinct(net: seq<Event<Cells, Cells>>, k: Cells)
    requires DistinctKeys(net)
    ensures forall j :: 0 <= j < |net| && net[j].key == k ==> LastLeft(net, k) == Some(net[j].left)
    ensures (forall j :: 0 <= j < |net| ==> net[j].key != k) ==> LastLeft(net, k) == None
  {
    forall j | 0 <= j < |net| && net[j].key == k ensures LastLeft(net, k) == Some(net[j].left) {
      OnlyIsLast(net, j);
    }
    LastLeftTouched(net, k);
  }

  lemma {:induction false} SetAt(net: seq<Event<Cells, Cells>>, i: nat, e: Event<Cells, Cells>)
    requires DistinctKeys(net) && i < |net| && net[i].key == e.key
    ensures DistinctKeys(net[i := e])
    ensures forall k :: LastLeft(net[i := e], k) == if k == e.key then Some(e.left) else LastLeft(net, k)
  {
    var now := net[i := e];
    forall k ensures LastLeft(now, k) == if k == e.key then Some(e.left) else LastLeft(net, k) {
      LastOfDistinct(now, k);
      LastOfDistinct(net, k);
      assert now[i].key == e.key;
      if j :| 0 <= j < |net| && net[j].key == k {
        assert now[j].key == k;
      }
    }
  }

  lemma {:induction false} NotThere(net: seq<Event<Cells, Cells>>, e: Event<Cells, Cells>)
    requires DistinctKeys(net) && forall j :: 0 <= j < |net| ==> net[j].key != e.key
    ensures DistinctKeys(net + [e])
    ensures forall k :: LastLeft(net + [e], k) == if k == e.key then Some(e.left) else LastLeft(net, k)
  {
    NotLast(net, e);
  }

  // ---- Rows of their own keys

  // The table's key columns, and all its columns.
  datatype Shape = Shape(key: set<string>, all: set<string>)

  function KeyOf(t: Shape, r: Cells): Cells { map c | c in r && c in t.key :: r[c] }

  // Whole rows, no two of one key.
  ghost predicate Keyed(t: Shape, rows: seq<Cells>) {
    && t.key != {} && t.key <= t.all && (forall r :: r in rows ==> r.Keys == t.all)
    && (forall i, j :: 0 <= i < j < |rows| ==> KeyOf(t, rows[i]) != KeyOf(t, rows[j]))
  }

  // A change carries its key and, where it leaves a row, the whole of it
  // with that key.
  ghost predicate Whole(t: Shape, c: Change) {
    c.key.Keys == t.key && (c.op != Delete ==> c.values.Keys == t.all && KeyOf(t, c.values) == c.key)
  }

  ghost predicate Has(t: Shape, rows: seq<Cells>, k: Cells) { exists r :: r in rows && KeyOf(t, r) == k }

  // An insert is new and an update hits a row.
  ghost predicate Fits(t: Shape, rows: seq<Cells>, c: Change) {
    Whole(t, c) && (c.op == Insert ==> !Has(t, rows, c.key)) && (c.op == Update ==> Has(t, rows, c.key))
  }

  lemma {:induction false} HitsItsKey(t: Shape, r: Cells, k: Cells)
    requires r.Keys == t.all && k.Keys == t.key && t.key <= t.all
    ensures Hit(r, k) <==> KeyOf(t, r) == k
  {
  }

  // What a table holds once the change, or the merge, is made at key k: the
  // row left, and the others as they were.
  ghost predicate LeavesAt(t: Shape, rows: seq<Cells>, k: Cells, left: Option<Cells>, now: seq<Cells>) {
    Keyed(t, now) && forall r :: r in now <==> (r in rows && KeyOf(t, r) != k) || (left == Some(r))
  }

  lemma {:induction false} KeyedRest(t: Shape, rows: seq<Cells>)
    requires Keyed(t, rows) && rows != []
    ensures Keyed(t, rows[1..]) && (forall r :: r in rows[1..] ==> KeyOf(t, r) != KeyOf(t, rows[0]))
    ensures forall r :: r in rows <==> r == rows[0] || r in rows[1..]
  {
    assert rows == [rows[0]] + rows[1..];
    forall r | r in rows[1..] ensures KeyOf(t, r) != KeyOf(t, rows[0]) {
      var i :| 0 <= i < |rows| - 1 && rows[1..][i] == r;
      assert rows[i + 1] == r;
    }
  }

  lemma {:induction false} KeyedFirst(t: Shape, r: Cells, rest: seq<Cells>)
    requires Keyed(t, rest) && r.Keys == t.all && forall x :: x in rest ==> KeyOf(t, x) != KeyOf(t, r)
    ensures Keyed(t, [r] + rest)
  {
    var rows := [r] + rest;
    forall i, j | 0 <= i < j < |rows| ensures KeyOf(t, rows[i]) != KeyOf(t, rows[j]) {
      assert rows[j] == rest[j - 1] && rest[j - 1] in rest;
      if i > 0 { assert rows[i] == rest[i - 1]; }
    }
  }

  lemma {:induction false} KeyedLast(t: Shape, rows: seq<Cells>, r: Cells)
    requires Keyed(t, rows) && r.Keys == t.all && forall x :: x in rows ==> KeyOf(t, x) != KeyOf(t, r)
    ensures LeavesAt(t, rows, KeyOf(t, r), Some(r), rows + [r])
  {
    var now := rows + [r];
    forall i, j | 0 <= i < j < |now| ensures KeyOf(t, now[i]) != KeyOf(t, now[j]) {
      assert now[i] == rows[i] && rows[i] in rows;
    }
  }

  // ---- Which rows a change hits

  // An update overlays every row it hits - only the first, where it is for a
  // single one - and leaves every other as it is, all in their places.
  lemma {:induction false} UpdatedEach(rows: seq<Cells>, on: Cells, values: Cells, single: bool, done: bool, j: nat)
    requires j < |rows|
    ensures |Updated(rows, on, values, single, done)| == |rows|
    ensures Updated(rows, on, values, single, done)[j]
            == if Hit(rows[j], on) && !(single && (done || exists i :: 0 <= i < j && Hit(rows[i], on))) then rows[j] + values else rows[j]
  {
    var hit := Hit(rows[0], on) && !(single && done);
    if |rows| > 1 {
      UpdatedEach(rows[1..], on, values, single, done || hit, if j == 0 then 0 else j - 1);
    } else {
      assert Updated(rows[1..], on, values, single, done || hit) == [];
    }
    if j > 0 {
      if i :| 0 <= i < j && Hit(rows[i], on) {
        assert i > 0 ==> Hit(rows[1..][i - 1], on);
      }
      if i :| 0 <= i < j - 1 && Hit(rows[1..][i], on) {
        assert Hit(rows[i + 1], on);
      }
    }
  }

  // A delete of every hit takes those rows off, the others in their order: it
  // is row by row.
  lemma {:induction false} DropsEachHit(a: seq<Cells>, b: seq<Cells>, on: Cells, done: bool)
    ensures Dropped(a + b, on, false, false) == Dropped(a, on, false, false) + Dropped(b, on, false, false)
    ensures forall r :: Dropped([r], on, false, done) == if Hit(r, on) then [] else [r]
  {
    if a == [] {
      assert a + b == b;
    } else {
      DropsEachHit(a[1..], b, on, done);
      assert (a + b)[1..] == a[1..] + b;
      DoneDropped(a[1..] + b, on);
      DoneDropped(a[1..], on);
      DoneDropped(b, on);
    }
  }

  lemma {:induction false} DoneDropped(rows: seq<Cells>, on: Cells)
    ensures Dropped(rows, on, false, true) == Dropped(rows, on, false, false)
  {
    if rows != [] {
      DoneDropped(rows[1..], on);
    }
  }

  // A delete of one row takes the first hit off and no other row.
  lemma {:induction false} DropsFirstHit(rows: seq<Cells>, on: Cells, i: nat)
    requires i < |rows| && Hit(rows[i], on) && forall j :: 0 <= j < i ==> !Hit(rows[j], on)
    ensures Dropped(rows, on, true, false) == rows[..i] + rows[i + 1..]
  {
    if i == 0 {
      DropsNoMore(rows[1..], on);
    } else {
      DropsFirstHit(rows[1..], on, i - 1);
      assert rows[..i] == [rows[0]] + rows[1..][..i - 1] && rows[1..][i..] == rows[i + 1..];
    }
  }

  lemma {:induction false} DropsNoMore(rows: seq<Cells>, on: Cells)
    ensures Dropped(rows, on, true, true) == rows
  {
    if rows != [] {
      DropsNoMore(rows[1..], on);
      assert rows == [rows[0]] + rows[1..];
    }
  }

  ghost predicate FirstHit(rows: seq<Cells>, on: Cells, i: nat) {
    i < |rows| && Hit(rows[i], on) && forall j :: 0 <= j < i ==> !Hit(rows[j], on)
  }

  lemma {:induction false} DropsAround(rows: seq<Cells>, on: Cells, i: nat)
    requires i < |rows|
    ensures Dropped(rows, on, false, false) == Dropped(rows[..i], on, false, false)
            + (if Hit(rows[i], on) then [] else [rows[i]]) + Dropped(rows[i + 1..], on, false, false)
  {
    var a, b, c := rows[..i], [rows[i]], rows[i + 1..];
    assert rows == a + (b + c);
    DropsEachHit(a, b + c, on, false);
    DropsEachHit(b, c, on, false);
  }

  ghost predicate Overlays(row: Cells, values: Cells, hit: bool, now: Cells) { now == if hit then row + values else row }

  // A row is hit by the change's key, or by what it matches where it has none.
  lemma {:induction false} AppliedSays(rows: seq<Cells>, c: Change, i: nat)
    requires i < |rows|
    ensures c.op == Insert ==> Applied(rows, c) == rows + [c.values]
    ensures var on, now := if c.key != map[] then c.key else c.matching, Applied(rows, c);
            && (c.op == Update ==> |now| == |rows| && Overlays(rows[i], c.values, Hit(rows[i], on) && (c.single ==> FirstHit(rows, on, i)), now[i]))
            && (c.op == Delete && c.single && FirstHit(rows, on, i) ==> now == rows[..i] + rows[i + 1..])
            && (c.op == Delete && !c.single ==> now == Dropped(rows[..i], on, false, false)
                                                    + (if Hit(rows[i], on) then [] else [rows[i]]) + Dropped(rows[i + 1..], on, false, false))
            && (c.op == Delete && (forall j :: 0 <= j < |rows| ==> !Hit(rows[j], on)) ==> now == rows)
  {
    var on := if c.key != map[] then c.key else c.matching;
    if c.op == Update {
      UpdatedEach(rows, on, c.values, c.single, false, i);
    }
    if c.op == Delete {
      if !c.single {
        DropsAround(rows, on, i);
      } else if FirstHit(rows, on, i) {
        DropsFirstHit(rows, on, i);
      }
      if forall j :: 0 <= j < |rows| ==> !Hit(rows[j], on) {
        NoneHit(rows, on, c.values, c.single, false);
      }
    }
  }

  // Rows that none is hit of are as they were, whatever is done at the hits.
  lemma {:induction false} NoneHit(rows: seq<Cells>, on: Cells, values: Cells, single: bool, done: bool)
    requires forall i :: 0 <= i < |rows| ==> !Hit(rows[i], on)
    ensures Dropped(rows, on, single, done) == rows && Updated(rows, on, values, single, done) == rows
    ensures Misses(rows, on) == rows && Overlaid(rows, on, values) == rows
  {
    if rows != [] {
      NoneHit(rows[1..], on, values, single, done);
      assert rows == [rows[0]] + rows[1..];
    }
  }

  // No row of the key is left after the one that was.
  lemma {:induction false} DroppedNone(t: Shape, rows: seq<Cells>, k: Cells, values: Cells, single: bool, done: bool)
    requires Keyed(t, rows) && k.Keys == t.key && !Has(t, rows, k)
    ensures Dropped(rows, k, single, done) == rows && Updated(rows, k, values, single, done) == rows
    ensures Misses(rows, k) == rows && Overlaid(rows, k, values) == rows
  {
    forall i | 0 <= i < |rows| ensures !Hit(rows[i], k) {
      assert rows[i] in rows;
      HitsItsKey(t, rows[i], k);
    }
    NoneHit(rows, k, values, single, done);
  }

  lemma {:induction false} DropsOne(t: Shape, rows: seq<Cells>, k: Cells, single: bool)
    requires Keyed(t, rows) && k.Keys == t.key
    ensures LeavesAt(t, rows, k, None, Dropped(rows, k, single, false)) && Misses(rows, k) == Dropped(rows, k, single, false)
  {
    if rows != [] {
      KeyedRest(t, rows);
      HitsItsKey(t, rows[0], k);
      if KeyOf(t, rows[0]) == k {
        DroppedNone(t, rows[1..], k, map[], single, true);
      } else {
        DropsOne(t, rows[1..], k, single);
        KeyedFirst(t, rows[0], Dropped(rows[1..], k, single, false));
      }
    }
  }

  lemma {:induction false} UpdatesOne(t: Shape, rows: seq<Cells>, k: Cells, values: Cells, single: bool)
    requires Keyed(t, rows) && k.Keys == t.key && values.Keys == t.all && KeyOf(t, values) == k && Has(t, rows, k)
    ensures LeavesAt(t, rows, k, Some(values), Updated(rows, k, values, single, false))
    ensures Overlaid(rows, k, values) == Updated(rows, k, values, single, false)
  {
    KeyedRest(t, rows);
    HitsItsKey(t, rows[0], k);
    if KeyOf(t, rows[0]) == k {
      DroppedNone(t, rows[1..], k, values, single, true);
      assert rows[0] + values == values;
      KeyedFirst(t, values, rows[1..]);
    } else {
      UpdatesOne(t, rows[1..], k, values, single);
      KeyedFirst(t, rows[0], Updated(rows[1..], k, values, single, false));
    }
  }

  // ---- As a table by key

  lemma {:induction false} OneRowAKey(t: Shape, rows: seq<Cells>)
    requires Keyed(t, rows)
    ensures forall r, x :: r in rows && x in rows && KeyOf(t, r) == KeyOf(t, x) ==> r == x
  {
  }

  ghost function AsMap(t: Shape, rows: seq<Cells>): (m: map<Cells, Cells>)
    requires Keyed(t, rows)
    ensures forall r :: r in rows ==> Lookup(m, KeyOf(t, r)) == Some(r)
    ensures forall k :: k in m ==> m[k] in rows && KeyOf(t, m[k]) == k
  {
    OneRowAKey(t, rows);
    map r | r in rows :: KeyOf(t, r) := r
  }

  lemma {:induction false} HasIsIn(t: Shape, rows: seq<Cells>, k: Cells)
    requires Keyed(t, rows)
    ensures Has(t, rows, k) <==> k in AsMap(t, rows)
  {
  }

  lemma {:induction false} LookupIs(t: Shape, rows: seq<Cells>, k: Cells, r: Cells)
    requires Keyed(t, rows)
    ensures Lookup(AsMap(t, rows), k) == Some(r) <==> r in rows && KeyOf(t, r) == k
  {
  }

  lemma {:induction false} LeftThere(t: Shape, rows: seq<Cells>, k: Cells, left: Option<Cells>, now: seq<Cells>, x: Cells)
    requires Keyed(t, rows) && LeavesAt(t, rows, k, left, now) && (left.Some? ==> KeyOf(t, left.value) == k)
    ensures Lookup(AsMap(t, now), x) == if x == k then left else Lookup(AsMap(t, rows), x)
  {
    var found := Lookup(AsMap(t, now), x);
    if x == k {
      if left.Some? {
        LookupIs(t, now, x, left.value);
      } else if found.Some? {
        LookupIs(t, now, x, found.value);
      }
    } else if found.Some? {
      LookupIs(t, now, x, found.value);
      LookupIs(t, rows, x, found.value);
    } else if Lookup(AsMap(t, rows), x).Some? {
      LookupIs(t, rows, x, Lookup(AsMap(t, rows), x).value);
    }
  }

  lemma {:induction false} LeavesIsEvent(t: Shape, rows: seq<Cells>, k: Cells, left: Option<Cells>, now: seq<Cells>)
    requires Keyed(t, rows) && LeavesAt(t, rows, k, left, now) && (left.Some? ==> KeyOf(t, left.value) == k)
    ensures AsMap(t, now) == Do(AsMap(t, rows), Event(k, left))
  {
    forall x ensures Lookup(AsMap(t, now), x) == if x == k then left else Lookup(AsMap(t, rows), x) {
      LeftThere(t, rows, k, left, now, x);
    }
    DoneAt(AsMap(t, rows), AsMap(t, now), Event(k, left));
  }

  lemma {:induction false} AppliedIsEvent(t: Shape, rows: seq<Cells>, c: Change)
    requires Keyed(t, rows) && Fits(t, rows, c)
    ensures Keyed(t, Applied(rows, c)) && AsMap(t, Applied(rows, c)) == Do(AsMap(t, rows), NetOne(c))
  {
    assert c.key != map[] by { assert c.key.Keys != {}; }
    if c.op != Delete {
      WholeValues(t, c);
    }
    match c.op
    case Insert =>
      KeyedLast(t, rows, c.values);
      LeavesIsEvent(t, rows, c.key, Some(c.values), Applied(rows, c));
    case Delete =>
      DropsOne(t, rows, c.key, c.single);
      LeavesIsEvent(t, rows, c.key, None, Applied(rows, c));
    case Update =>
      UpdatesOne(t, rows, c.key, c.values, c.single);
      LeavesIsEvent(t, rows, c.key, Some(c.values), Applied(rows, c));
  }

  lemma {:induction false} WholeValues(t: Shape, c: Change)
    requires Whole(t, c) && c.op != Delete && t.key <= t.all
    ensures c.key + c.values == c.values
  {
    forall x | x in c.key ensures x in c.values && c.key[x] == c.values[x] {
      assert KeyOf(t, c.values)[x] == c.key[x];
    }
  }

  // Each change fits the table as the ones before it left it.
  ghost predicate AllFit(t: Shape, rows: seq<Cells>, cs: seq<Change>) {
    forall i :: 0 <= i < |cs| ==> Fits(t, AllApplied(rows, cs[..i]), cs[i])
  }

  lemma {:induction false} AllAppliedAreEvents(t: Shape, rows: seq<Cells>, cs: seq<Change>)
    requires Keyed(t, rows) && AllFit(t, rows, cs)
    ensures Keyed(t, AllApplied(rows, cs)) && AsMap(t, AllApplied(rows, cs)) == DoAll(AsMap(t, rows), NetEvents(cs))
  {
    if cs != [] {
      var n := |cs| - 1;
      forall i | 0 <= i < n ensures Fits(t, AllApplied(rows, cs[..n][..i]), cs[..n][i]) {
        assert cs[..n][..i] == cs[..i];
      }
      AllAppliedAreEvents(t, rows, cs[..n]);
      AppliedIsEvent(t, AllApplied(rows, cs[..n]), cs[n]);
      NetOneMore(cs, n);
      assert cs[..n + 1] == cs;
      assert NetEvents(cs)[..n] == NetEvents(cs[..n]);
    }
  }

  // ---- Merging leaves what the events leave

  ghost predicate GoodEvent(t: Shape, e: Event<Cells, Cells>) {
    e.key.Keys == t.key && (e.left.Some? ==> e.left.value.Keys == t.all && KeyOf(t, e.left.value) == e.key)
  }

  lemma {:induction false} MergedIsEvent(t: Shape, rows: seq<Cells>, e: Event<Cells, Cells>)
    requires Keyed(t, rows) && GoodEvent(t, e)
    ensures Keyed(t, Merged(rows, e, true)) && AsMap(t, Merged(rows, e, true)) == Do(AsMap(t, rows), e)
    ensures e.left.Some? && !Has(t, rows, e.key) ==> Merged(rows, e, false) == Merged(rows, e, true)
  {
    forall r | r in rows ensures Hit(r, e.key) <==> KeyOf(t, r) == e.key {
      HitsItsKey(t, r, e.key);
    }
    if e.left == None {
      DropsOne(t, rows, e.key, true);
    } else if Has(t, rows, e.key) {
      UpdatesOne(t, rows, e.key, e.left.value, true);
    } else {
      KeyedLast(t, rows, e.left.value);
    }
    LeavesIsEvent(t, rows, e.key, e.left, Merged(rows, e, true));
  }

  lemma {:induction false} AllMergedAreEvents(t: Shape, rows: seq<Cells>, net: seq<Event<Cells, Cells>>)
    requires Keyed(t, rows) && forall e :: e in net ==> GoodEvent(t, e)
    ensures Keyed(t, AllMerged(rows, net, true)) && AsMap(t, AllMerged(rows, net, true)) == DoAll(AsMap(t, rows), net)
  {
    if net != [] {
      var n := |net| - 1;
      assert net[n] in net && forall e :: e in net[..n] ==> e in net;
      AllMergedAreEvents(t, rows, net[..n]);
      MergedIsEvent(t, AllMerged(rows, net[..n], true), net[n]);
    }
  }

  ghost predicate IsNet(cs: seq<Change>, net: seq<Event<Cells, Cells>>) {
    DistinctKeys(net) && forall k :: LastLeft(net, k) == LastLeft(NetEvents(cs), k)
  }

  lemma {:induction false} NetIsGood(t: Shape, rows: seq<Cells>, cs: seq<Change>, net: seq<Event<Cells, Cells>>)
    requires Keyed(t, rows) && AllFit(t, rows, cs) && IsNet(cs, net)
    ensures forall e :: e in net ==> GoodEvent(t, e)
  {
    forall e | e in net ensures GoodEvent(t, e) {
      var i :| 0 <= i < |net| && net[i] == e;
      OnlyIsLast(net, i);
      LastLeftIsThere(NetEvents(cs), e.key);
      var j :| 0 <= j < |cs| && NetEvents(cs)[j] == e;
      assert Fits(t, AllApplied(rows, cs[..j]), cs[j]);
      assert cs[j].key != map[] by { assert cs[j].key.Keys != {}; }
      if cs[j].op != Delete {
        WholeValues(t, cs[j]);
      }
    }
  }

  // ---- The same rows

  lemma {:induction false} KeyedOnce(t: Shape, rows: seq<Cells>, r: Cells)
    requires Keyed(t, rows)
    ensures multiset(rows)[r] == if r in rows then 1 else 0
  {
    if rows != [] {
      KeyedRest(t, rows);
      KeyedOnce(t, rows[1..], r);
      assert rows == [rows[0]] + rows[1..];
    }
  }

  lemma {:induction false} SameTableSameRows(t: Shape, a: seq<Cells>, b: seq<Cells>)
    requires Keyed(t, a) && Keyed(t, b) && AsMap(t, a) == AsMap(t, b)
    ensures multiset(a) == multiset(b)
  {
    forall r ensures multiset(a)[r] == multiset(b)[r] {
      KeyedOnce(t, a, r);
      KeyedOnce(t, b, r);
      if r in a {
        assert Lookup(AsMap(t, b), KeyOf(t, r)) == Some(r);
      }
      if r in b {
        assert Lookup(AsMap(t, a), KeyOf(t, r)) == Some(r);
      }
    }
  }

  // On a target that keeps keys unique the merge has the rows commit order
  // has, in some order.
  lemma {:induction false} MergeIsCommitOrder(t: Shape, rows: seq<Cells>, cs: seq<Change>, net: seq<Event<Cells, Cells>>)
    requires Keyed(t, rows) && AllFit(t, rows, cs) && IsNet(cs, net)
    ensures multiset(AllMerged(rows, net, true)) == multiset(AllApplied(rows, cs))
    ensures Keyed(t, AllApplied(rows, cs))
  {
    NetIsGood(t, rows, cs, net);
    AllAppliedAreEvents(t, rows, cs);
    AllMergedAreEvents(t, rows, net);
    SameLastSameTable(AsMap(t, rows), net, NetEvents(cs));
    SameTableSameRows(t, AllMerged(rows, net, true), AllApplied(rows, cs));
  }

  // ---- On a target that does not

  // A row is put over none of its key already on the table.
  ghost predicate NoneOver(t: Shape, rows: seq<Cells>, net: seq<Event<Cells, Cells>>) {
    forall e :: e in net && e.left.Some? ==> !Has(t, rows, e.key)
  }

  // A key not merged yet is there as it was.
  lemma {:induction false} NotYetThere(t: Shape, rows: seq<Cells>, less: seq<Event<Cells, Cells>>, k: Cells)
    requires Keyed(t, rows) && DistinctKeys(less) && (forall e :: e in less ==> GoodEvent(t, e))
    requires forall j :: 0 <= j < |less| ==> less[j].key != k
    ensures Keyed(t, AllMerged(rows, less, true)) && (Has(t, AllMerged(rows, less, true), k) <==> Has(t, rows, k))
  {
    AllMergedAreEvents(t, rows, less);
    FoldIsLast(AsMap(t, rows), less, k);
    LastOfDistinct(less, k);
    HasIsIn(t, AllMerged(rows, less, true), k);
    HasIsIn(t, rows, k);
  }

  lemma {:induction false} NoneOverMerges(t: Shape, rows: seq<Cells>, net: seq<Event<Cells, Cells>>)
    requires Keyed(t, rows) && DistinctKeys(net) && (forall e :: e in net ==> GoodEvent(t, e)) && NoneOver(t, rows, net)
    ensures AllMerged(rows, net, false) == AllMerged(rows, net, true)
  {
    if net != [] {
      var n := |net| - 1;
      var less := net[..n];
      assert net[n] in net && forall e :: e in less ==> e in net;
      NoneOverMerges(t, rows, less);
      NotYetThere(t, rows, less, net[n].key);
      MergedIsEvent(t, AllMerged(rows, less, true), net[n]);
    }
  }

  // How many rows have the key.
  function Number(t: Shape, rows: seq<Cells>, k: Cells): nat {
    if rows == [] then 0 else (if KeyOf(t, rows[0]) == k then 1 else 0) + Number(t, rows[1..], k)
  }

  ghost predicate WholeRows(t: Shape, rows: seq<Cells>) { t.key <= t.all && forall r :: r in rows ==> r.Keys == t.all }

  lemma {:induction false} NumberBoth(t: Shape, a: seq<Cells>, b: seq<Cells>, k: Cells)
    ensures Number(t, a + b, k) == Number(t, a, k) + Number(t, b, k)
  {
    if a == [] {
      assert a + b == b;
    } else {
      assert (a + b)[1..] == a[1..] + b;
      NumberBoth(t, a[1..], b, k);
    }
  }

  lemma {:induction false} MissesKeepOthers(t: Shape, rows: seq<Cells>, on: Cells, k: Cells)
    requires WholeRows(t, rows) && on.Keys == t.key && k != on
    ensures Number(t, Misses(rows, on), k) == Number(t, rows, k)
    ensures WholeRows(t, Misses(rows, on))
  {
    if rows != [] {
      assert rows == [rows[0]] + rows[1..];
      assert rows[0] in rows && forall r :: r in rows[1..] ==> r in rows;
      HitsItsKey(t, rows[0], on);
      MissesKeepOthers(t, rows[1..], on, k);
      NumberBoth(t, if Hit(rows[0], on) then [] else [rows[0]], Misses(rows[1..], on), k);
    }
  }

  lemma {:induction false} MissesWhole(t: Shape, rows: seq<Cells>, on: Cells)
    requires WholeRows(t, rows)
    ensures WholeRows(t, Misses(rows, on))
  {
    if rows != [] {
      assert rows == [rows[0]] + rows[1..];
      MissesWhole(t, rows[1..], on);
    }
  }

  lemma {:induction false} MergedNumber(t: Shape, rows: seq<Cells>, e: Event<Cells, Cells>, k: Cells)
    requires WholeRows(t, rows) && GoodEvent(t, e)
    ensures WholeRows(t, Merged(rows, e, false))
    ensures (e.key == k ==> e.left.Some?) ==> Number(t, Merged(rows, e, false), k) == Number(t, rows, k) + (if e.key == k then 1 else 0)
  {
    MissesWhole(t, rows, e.key);
    if e.left.Some? {
      NumberBoth(t, rows, [e.left.value], k);
      assert [e.left.value][1..] == [];
    } else if e.key != k {
      MissesKeepOthers(t, rows, e.key, k);
    }
  }

  function Times(net: seq<Event<Cells, Cells>>, k: Cells): nat {
    if net == [] then 0 else Times(net[..|net| - 1], k) + (if net[|net| - 1].key == k then 1 else 0)
  }

  // Appended beside the row that was there, it is there twice.
  lemma {:induction false} AppendsBeside(t: Shape, rows: seq<Cells>, net: seq<Event<Cells, Cells>>, k: Cells)
    requires WholeRows(t, rows) && forall e :: e in net ==> GoodEvent(t, e) && (e.key == k ==> e.left.Some?)
    ensures WholeRows(t, AllMerged(rows, net, false))
    ensures Number(t, AllMerged(rows, net, false), k) == Number(t, rows, k) + Times(net, k)
  {
    if net != [] {
      var n := |net| - 1;
      var less := net[..n];
      assert net[n] in net && forall x :: x in less ==> x in net;
      AppendsBeside(t, rows, less, k);
      MergedNumber(t, AllMerged(rows, less, false), net[n], k);
    }
  }

  lemma {:induction false} OnceAtLeast(net: seq<Event<Cells, Cells>>, e: Event<Cells, Cells>)
    requires e in net
    ensures Times(net, e.key) >= 1
  {
    var n := |net| - 1;
    if net[n] != e {
      assert net == net[..n] + [net[n]];
      OnceAtLeast(net[..n], e);
    }
  }

  lemma {:induction false} NumberHas(t: Shape, rows: seq<Cells>, k: Cells)
    ensures Number(t, rows, k) > 0 <==> Has(t, rows, k)
  {
    if rows != [] {
      NumberHas(t, rows[1..], k);
      assert forall r :: r in rows <==> r in rows[1..] || r == rows[0] by { assert rows == [rows[0]] + rows[1..]; }
    }
  }

  lemma {:induction false} NumberOnce(t: Shape, rows: seq<Cells>, k: Cells)
    requires Keyed(t, rows)
    ensures Number(t, rows, k) <= 1
  {
    if rows != [] {
      KeyedRest(t, rows);
      NumberOnce(t, rows[1..], k);
      NumberHas(t, rows[1..], k);
    }
  }

  function Out(b: seq<Cells>, j: nat): seq<Cells>
    requires j < |b|
  {
    b[..j] + b[j + 1..]
  }

  lemma {:induction false} OutIs(b: seq<Cells>, j: nat)
    requires j < |b|
    ensures multiset(Out(b, j)) == multiset(b) - multiset{b[j]}
  {
    assert b == b[..j] + [b[j]] + b[j + 1..];
    assert multiset(b) == multiset(b[..j]) + multiset{b[j]} + multiset(b[j + 1..]);
  }

  lemma {:induction false} NumberOut(t: Shape, b: seq<Cells>, j: nat, k: Cells)
    requires j < |b|
    ensures Number(t, b, k) == Number(t, Out(b, j), k) + (if KeyOf(t, b[j]) == k then 1 else 0)
  {
    assert b == b[..j] + [b[j]] + b[j + 1..];
    NumberBoth(t, b[..j], b[j + 1..], k);
    NumberBoth(t, b[..j] + [b[j]], b[j + 1..], k);
    NumberBoth(t, b[..j], [b[j]], k);
    assert [b[j]][1..] == [];
  }

  // The same rows in any order have as many of each key.
  lemma {:induction false} SameRowsSameNumber(t: Shape, a: seq<Cells>, b: seq<Cells>, k: Cells)
    requires multiset(a) == multiset(b)
    ensures Number(t, a, k) == Number(t, b, k)
    decreases |a|
  {
    if a == [] {
      assert b == [] by { assert |multiset(b)| == 0; }
    } else {
      assert a[0] in multiset(b);
      var j :| 0 <= j < |b| && b[j] == a[0];
      OutIs(a, 0);
      OutIs(b, j);
      SameRowsSameNumber(t, Out(a, 0), Out(b, j), k);
      NumberOut(t, a, 0, k);
      NumberOut(t, b, j, k);
    }
  }

  // Where the target does not keep keys unique, the merge has the rows commit
  // order has exactly where no row is put over one that was there.
  lemma {:induction false} UnkeptMergesExactly(t: Shape, rows: seq<Cells>, cs: seq<Change>, net: seq<Event<Cells, Cells>>)
    requires Keyed(t, rows) && AllFit(t, rows, cs) && IsNet(cs, net)
    ensures multiset(AllMerged(rows, net, false)) == multiset(AllApplied(rows, cs)) <==> NoneOver(t, rows, net)
  {
    NetIsGood(t, rows, cs, net);
    MergeIsCommitOrder(t, rows, cs, net);
    if NoneOver(t, rows, net) {
      NoneOverMerges(t, rows, net);
    } else {
      var e :| e in net && e.left.Some? && Has(t, rows, e.key);
      Beside(t, rows, net, e);
      NumberOnce(t, AllApplied(rows, cs), e.key);
      if multiset(AllMerged(rows, net, false)) == multiset(AllApplied(rows, cs)) {
        SameRowsSameNumber(t, AllMerged(rows, net, false), AllApplied(rows, cs), e.key);
      }
    }
  }

  lemma {:induction false} Beside(t: Shape, rows: seq<Cells>, net: seq<Event<Cells, Cells>>, e: Event<Cells, Cells>)
    requires Keyed(t, rows) && DistinctKeys(net) && (forall x :: x in net ==> GoodEvent(t, x))
    requires e in net && e.left.Some? && Has(t, rows, e.key)
    ensures Number(t, AllMerged(rows, net, false), e.key) >= 2
  {
    forall x | x in net && x.key == e.key ensures x == e {
      var i :| 0 <= i < |net| && net[i] == x;
      var j :| 0 <= j < |net| && net[j] == e;
    }
    NumberHas(t, rows, e.key);
    AppendsBeside(t, rows, net, e.key);
    OnceAtLeast(net, e);
  }
}
