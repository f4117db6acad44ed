// A keyed table under a list of events, each leaving one key holding a
// value or nothing: the last event at each key settles it.
module LastEvent {
  datatype Option<+T> = None | Some(value: T)

  datatype Event<+K, +V> = Event(key: K, left: Option<V>)

  function Lookup<K, V>(m: map<K, V>, k: K): Option<V> {
    if k in m then Some(m[k]) else None
  }

  function Do<K, V>(m: map<K, V>, e: Event<K, V>): map<K, V> {
    if e.left.Some? then m[e.key := e.left.value] else m - {e.key}
  }

  function DoAll<K, V>(m: map<K, V>, es: seq<Event<K, V>>): map<K, V> {
    if es == [] then m else Do(DoAll(m, es[..|es| - 1]), es[|es| - 1])
  }

  // What the last event at `k` leaves there; None where no event is at `k`.
  function LastLeft<K(==), V>(es: seq<Event<K, V>>, k: K): Option<Option<V>> {
    if es == [] then None
    else if es[|es| - 1].key == k then Some(es[|es| - 1].left)
    else LastLeft(es[..|es| - 1], k)
  }

  lemma {:induction false} FoldIsLast<K, V>(m: map<K, V>, es: seq<Event<K, V>>, k: K)
    ensures Lookup(DoAll(m, es), k) == (var l := LastLeft(es, k); if l.Some? then l.value else Lookup(m, k))
  {
    if es != [] {
      FoldIsLast(m, es[..|es| - 1], k);
    }
  }

  lemma {:induction false} MapsAgree<K, V>(a: map<K, V>, b: map<K, V>)
    requires forall k :: Lookup(a, k) == Lookup(b, k)
    ensures a == b
  {
    forall k ensures k in a <==> k in b {
      assert Lookup(a, k) == Lookup(b, k);
    }
    forall k | k in a ensures a[k] == b[k] {
      assert Lookup(a, k) == Lookup(b, k);
    }
  }

  // A table that differs at one key by what an event leaves there.
  lemma {:induction false} DoneAt<K, V>(m: map<K, V>, now: map<K, V>, e: Event<K, V>)
    requires forall k :: Lookup(now, k) == if k == e.key then e.left else Lookup(m, k)
    ensures now == Do(m, e)
  {
    MapsAgree(now, Do(m, e));
  }

  // Two lists that end alike at every key leave every table alike.
  lemma {:induction false} SameLastSameTable<K, V>(m: map<K, V>, a: seq<Event<K, V>>, b: seq<Event<K, V>>)
    requires forall k :: LastLeft(a, k) == LastLeft(b, k)
    ensures DoAll(m, a) == DoAll(m, b)
  {
    forall k ensures Lookup(DoAll(m, a), k) == Lookup(DoAll(m, b), k) {
      FoldIsLast(m, a, k);
      FoldIsLast(m, b, k);
    }
    MapsAgree(DoAll(m, a), DoAll(m, b));
  }

  // Any list done twice leaves what it left once.
  lemma {:induction false} DoneTwiceIsOnce<K, V>(m: map<K, V>, es: seq<Event<K, V>>)
    ensures DoAll(DoAll(m, es), es) == DoAll(m, es)
  {
    var once := DoAll(m, es);
    forall k ensures Lookup(DoAll(once, es), k) == Lookup(once, k) {
      FoldIsLast(m, es, k);
      FoldIsLast(once, es, k);
    }
    MapsAgree(DoAll(once, es), once);
  }

  lemma {:induction false} DoAllConcat<K, V>(m: map<K, V>, a: seq<Event<K, V>>, b: seq<Event<K, V>>)
    ensures DoAll(m, a + b) == DoAll(DoAll(m, a), b)
  {
    if b == [] {
      assert a + b == a;
    } else {
      DoAllConcat(m, a, b[..|b| - 1]);
      assert (a + b)[..|a + b| - 1] == a + b[..|b| - 1];
    }
  }

  lemma {:induction false} LastLeftConcat<K, V>(a: seq<Event<K, V>>, b: seq<Event<K, V>>, k: K)
    ensures LastLeft(a + b, k) == if LastLeft(b, k).Some? then LastLeft(b, k) else LastLeft(a, k)
  {
    if b == [] {
      assert a + b == a;
    } else {
      LastLeftConcat(a, b[..|b| - 1], k);
      assert (a + b)[..|a + b| - 1] == a + b[..|b| - 1];
    }
  }

  lemma {:induction false} LastLeftTouched<K, V>(es: seq<Event<K, V>>, k: K)
    ensures LastLeft(es, k).Some? <==> exists i :: 0 <= i < |es| && es[i].key == k
  {
    if es != [] {
      LastLeftTouched(es[..|es| - 1], k);
      if LastLeft(es[..|es| - 1], k).Some? {
        var i :| 0 <= i < |es| - 1 && es[..|es| - 1][i].key == k;
        assert es[i].key == k;
      }
      if i :| 0 <= i < |es| && es[i].key == k {
        if i < |es| - 1 { assert es[..|es| - 1][i].key == k; }
      }
    }
  }

  ghost predicate DistinctKeys<K, V>(es: seq<Event<K, V>>) {
    forall i, j :: 0 <= i < j < |es| ==> es[i].key != es[j].key
  }

  // Where no key comes twice, an event in the list is its key's last.
  lemma {:induction false} OnlyIsLast<K, V>(es: seq<Event<K, V>>, i: nat)
    requires DistinctKeys(es) && i < |es|
    ensures LastLeft(es, es[i].key) == Some(es[i].left)
  {
    if i < |es| - 1 {
      assert es[|es| - 1].key != es[i].key;
      OnlyIsLast(es[..|es| - 1], i);
    }
  }

  lemma {:induction false} LastLeftIsThere<K, V>(es: seq<Event<K, V>>, k: K)
    requires LastLeft(es, k).Some?
    ensures Event(k, LastLeft(es, k).value) in es
  {
    if es[|es| - 1].key == k {
      assert es[|es| - 1] == Event(k, LastLeft(es, k).value);
    } else {
      LastLeftIsThere(es[..|es| - 1], k);
    }
  }

  lemma {:induction false} SameEventsSameLast<K, V>(a: seq<Event<K, V>>, b: seq<Event<K, V>>, k: K)
    requires DistinctKeys(b)
    requires forall e :: e in a <==> e in b
    ensures LastLeft(a, k) == LastLeft(b, k)
  {
    LastLeftTouched(a, k);
    LastLeftTouched(b, k);
    if LastLeft(a, k).Some? {
      LastLeftIsThere(a, k);
      var j :| 0 <= j < |b| && b[j] == Event(k, LastLeft(a, k).value);
      OnlyIsLast(b, j);
    } else if LastLeft(b, k).Some? {
      LastLeftIsThere(b, k);
    }
  }

  // Order does not matter once no key comes twice: a list of the same events,
  // however ordered or repeated, leaves every table alike.
  lemma {:induction false} SameEventsSameTable<K, V>(m: map<K, V>, a: seq<Event<K, V>>, b: seq<Event<K, V>>)
    requires DistinctKeys(b)
    requires forall e :: e in a <==> e in b
    ensures DoAll(m, a) == DoAll(m, b)
  {
    forall k ensures LastLeft(a, k) == LastLeft(b, k) {
      SameEventsSameLast(a, b, k);
    }
    SameLastSameTable(m, a, b);
  }
}
