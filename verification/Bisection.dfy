// A key range halved with a digest of each half on both sides
// (`bench/proof.py`).
module Bisection {
  import opened LastEvent
  import opened Extremes

  datatype Digest = Digest(count: nat, hash: int)

  datatype Range = Range(lo: int, hi: int)

  datatype Answer = Answer(missing: nat, changed: nat, extra: nat, digests: nat)

  function In<R>(rows: map<int, R>, lo: int, hi: int): map<int, R> {
    map k | k in rows && lo <= k < hi :: rows[k]
  }

  // A side asked for the digest of its rows in a key range.
  type Digester = (int, int) -> Digest

  function DigestsOf<R>(hash: map<int, R> -> int, rows: map<int, R>): Digester {
    (lo: int, hi: int) => Digest(|In(rows, lo, hi)|, hash(In(rows, lo, hi)))
  }

  // Equal digests mean equal rows.
  ghost predicate Faithful<R(!new)>(hash: map<int, R> -> int) {
    forall a, b :: hash(a) == hash(b) ==> a == b
  }

  // ---- Where the sides differ

  function Missing<R>(src: map<int, R>, dst: map<int, R>, lo: int, hi: int): set<int> {
    set k | k in src && k !in dst && lo <= k < hi
  }

  function Changed<R(==)>(src: map<int, R>, dst: map<int, R>, lo: int, hi: int): set<int> {
    set k | k in src && k in dst && src[k] != dst[k] && lo <= k < hi
  }

  function Extra<R>(src: map<int, R>, dst: map<int, R>, lo: int, hi: int): set<int> {
    Missing(dst, src, lo, hi)
  }

  ghost function Differ<R>(src: map<int, R>, dst: map<int, R>, lo: int, hi: int): set<int> {
    Missing(src, dst, lo, hi) + Changed(src, dst, lo, hi) + Extra(src, dst, lo, hi)
  }

  // Digests agree on a range exactly where its rows do.
  ghost predicate Truthful<R(!new)>(a: Digester, b: Digester, src: map<int, R>, dst: map<int, R>) {
    forall lo, hi :: a(lo, hi) == b(lo, hi) <==> Differ(src, dst, lo, hi) == {}
  }

  lemma {:induction false} NoDifference<R>(src: map<int, R>, dst: map<int, R>, lo: int, hi: int)
    ensures In(src, lo, hi) == In(dst, lo, hi) <==> Differ(src, dst, lo, hi) == {}
  {
    var a, b := In(src, lo, hi), In(dst, lo, hi);
    if Differ(src, dst, lo, hi) == {} {
      forall k ensures k in a <==> k in b {
        assert k !in Differ(src, dst, lo, hi);
      }
      forall k | k in a ensures a[k] == b[k] {
        assert k !in Differ(src, dst, lo, hi);
      }
      assert a == b;
    } else {
      var k := Pick(Differ(src, dst, lo, hi));
      assert !(k in a && k in b && a[k] == b[k]) && (k in a || k in b);
    }
  }

  lemma {:induction false} FaithfulIsTruthful<R(!new)>(hash: map<int, R> -> int, src: map<int, R>, dst: map<int, R>)
    requires Faithful(hash)
    ensures Truthful(DigestsOf(hash, src), DigestsOf(hash, dst), src, dst)
  {
    forall lo, hi
      ensures DigestsOf(hash, src)(lo, hi) == DigestsOf(hash, dst)(lo, hi) <==> Differ(src, dst, lo, hi) == {}
    {
      NoDifference(src, dst, lo, hi);
    }
  }

  lemma {:induction false} DifferSplits<R>(src: map<int, R>, dst: map<int, R>, lo: int, mid: int, hi: int)
    requires lo <= mid <= hi
    ensures |Differ(src, dst, lo, hi)| == |Differ(src, dst, lo, mid)| + |Differ(src, dst, mid, hi)|
  {
    var a, b := Differ(src, dst, lo, mid), Differ(src, dst, mid, hi);
    assert Differ(src, dst, lo, hi) == a + b && a !! b;
  }

  // ---- What the halving costs

  predicate IsLeaf(a: Digest, b: Digest, leafRows: int, lo: int, hi: int) {
    (a.count <= leafRows && b.count <= leafRows) || hi - lo <= 1
  }

  // Whether a range is halved: its digests differ and it is no leaf.
  function Halves(a: Digester, b: Digester, leafRows: int): (int, int) -> bool {
    (lo: int, hi: int) => a(lo, hi) != b(lo, hi) && !IsLeaf(a(lo, hi), b(lo, hi), leafRows, lo, hi)
  }

  // One key, or no more rows on either side than a leaf may have.
  ghost predicate Small(a: Digester, b: Digester, leafRows: int, r: Range) {
    r.hi - r.lo == 1 || (a(r.lo, r.hi).count <= leafRows && b(r.lo, r.hi).count <= leafRows)
  }

  // A range of a key or more is halved exactly where its digests differ and
  // it is not small.
  lemma {:induction false} HalvesExactly(a: Digester, b: Digester, leafRows: int, r: Range)
    requires r.lo < r.hi
    ensures Halves(a, b, leafRows)(r.lo, r.hi) <==> a(r.lo, r.hi) != b(r.lo, r.hi) && !Small(a, b, leafRows, r)
  {
  }

  // The ranges digested at a range and below it.
  ghost function Asked(halves: (int, int) -> bool, lo: int, hi: int): nat
    decreases hi - lo
  {
    if hi - lo >= 2 && halves(lo, hi) then
      var mid := lo + (hi - lo) / 2;
      1 + Asked(halves, lo, mid) + Asked(halves, mid, hi)
    else 1
  }

  ghost function Pow2(n: nat): nat { if n == 0 then 1 else 2 * Pow2(n - 1) }

  // The logarithm to base 2, rounded up.
  ghost function CeilLog2(n: nat): (r: nat)
    requires n >= 1
    ensures n <= Pow2(r) && (r > 0 ==> Pow2(r - 1) < n)
  {
    if n == 1 then 0 else
      var r := CeilLog2((n + 1) / 2);
      assert r > 0 ==> 2 * Pow2(r - 1) == Pow2(r);
      1 + r
  }

  lemma {:induction false} CeilLog2Monotone(m: nat, n: nat)
    requires 1 <= m <= n
    ensures CeilLog2(m) <= CeilLog2(n)
    decreases n
  {
    if m > 1 {
      CeilLog2Monotone((m + 1) / 2, (n + 1) / 2);
    }
  }

  // 1 + 2 * d * l, added up level by level.
  ghost function Bound(d: nat, l: nat): nat {
    if l == 0 then 1 else Bound(d, l - 1) + 2 * d
  }

  lemma {:induction false} BoundIs(d: nat, l: nat)
    ensures Bound(d, l) == 1 + 2 * d * l
  {
    if l > 0 {
      BoundIs(d, l - 1);
    }
  }

  lemma {:induction false} BoundAdds(d1: nat, d2: nat, l: nat)
    ensures Bound(d1, l) + Bound(d2, l) == Bound(d1 + d2, l) + 1
  {
    if l > 0 {
      BoundAdds(d1, d2, l - 1);
    }
  }

  lemma {:induction false} BoundGrows(d: nat, l: nat, m: nat)
    requires l <= m
    ensures Bound(d, l) <= Bound(d, m)
  {
    if l < m {
      BoundGrows(d, l, m - 1);
    }
  }

  // Halving a range that holds d1 and d2 differing keys stays within the bound.
  lemma {:induction false} BoundHalves(d1: nat, d2: nat, l1: nat, l2: nat, l: nat)
    requires d1 + d2 >= 1 && l >= 1 && l1 <= l - 1 && l2 <= l - 1
    ensures 1 + Bound(d1, l1) + Bound(d2, l2) <= Bound(d1 + d2, l)
  {
    BoundGrows(d1, l1, l - 1);
    BoundGrows(d2, l2, l - 1);
    BoundAdds(d1, d2, l - 1);
  }

  // The halves of a range of n keys are a level lower.
  lemma {:induction false} HalvesAreLower(lo: int, mid: int, hi: int)
    requires hi - lo >= 2 && mid == lo + (hi - lo) / 2
    ensures CeilLog2(hi - lo) >= 1
    ensures CeilLog2(mid - lo) <= CeilLog2(hi - lo) - 1 && CeilLog2(hi - mid) <= CeilLog2(hi - lo) - 1
  {
    CeilLog2Monotone(mid - lo, (hi - lo + 1) / 2);
    CeilLog2Monotone(hi - mid, (hi - lo + 1) / 2);
  }

  // How many of the differing keys lie in a range.
  ghost function Differing<R(!new)>(src: map<int, R>, dst: map<int, R>): (int, int) -> nat {
    (lo: int, hi: int) => |Differ(src, dst, lo, hi)|
  }

  lemma {:induction false} AskedWithinBound(halves: (int, int) -> bool, differing: (int, int) -> nat, lo: int, hi: int)
    requires lo < hi
    requires forall a, m, b :: a <= m <= b ==> differing(a, b) == differing(a, m) + differing(m, b)
    requires forall a, b :: halves(a, b) ==> differing(a, b) >= 1
    ensures Asked(halves, lo, hi) <= Bound(differing(lo, hi), CeilLog2(hi - lo))
    decreases hi - lo
  {
    if hi - lo >= 2 && halves(lo, hi) {
      var mid := lo + (hi - lo) / 2;
      AskedWithinBound(halves, differing, lo, mid);
      AskedWithinBound(halves, differing, mid, hi);
      HalvesAreLower(lo, mid, hi);
      assert differing(lo, hi) == differing(lo, mid) + differing(mid, hi);
      BoundHalves(differing(lo, mid), differing(mid, hi), CeilLog2(mid - lo), CeilLog2(hi - mid), CeilLog2(hi - lo));
    } else {
      BoundGrows(differing(lo, hi), 0, CeilLog2(hi - lo));
    }
  }

  // The digests asked at most, of d differing keys in a range of n keys.
  ghost function Limit(d: nat, n: nat): nat
    requires n >= 1
  {
    2 * Bound(d, CeilLog2(n))
  }

  lemma {:induction false} LimitIs(d: nat, n: nat)
    requires n >= 1
    ensures Limit(d, n) == 2 * (1 + 2 * d * CeilLog2(n))
  {
    BoundIs(d, CeilLog2(n));
  }

  // Cheap: with D differing keys in a range of N keys, at most
  // 1 + 2 * D * ceil(log2 N) ranges are digested, two digests each.
  lemma {:induction false} AskedIsBounded<R(!new)>(a: Digester, b: Digester, src: map<int, R>, dst: map<int, R>, leafRows: int, lo: int, hi: int)
    requires Truthful(a, b, src, dst) && lo < hi
    ensures 2 * Asked(Halves(a, b, leafRows), lo, hi) <= Limit(|Differ(src, dst, lo, hi)|, hi - lo)
  {
    var halves, differing := Halves(a, b, leafRows), Differing(src, dst);
    forall x, m, y | x <= m <= y ensures differing(x, y) == differing(x, m) + differing(m, y) {
      DifferSplits(src, dst, x, m, y);
    }
    forall x, y | halves(x, y) ensures differing(x, y) >= 1 {
      assert Differ(src, dst, x, y) != {};
    }
    AskedWithinBound(halves, differing, lo, hi);
  }

  // ---- The stack loop

  // `found` are ranges within [lo, at), ascending and apart, each holding a
  // differing key, and every differing key below `at` is in one of them.
  ghost predicate Exact<R>(src: map<int, R>, dst: map<int, R>, lo: int, at: int, found: seq<Range>) {
    && (forall i :: 0 <= i < |found| ==> lo <= found[i].lo < found[i].hi <= at && Differ(src, dst, found[i].lo, found[i].hi) != {})
    && (forall i, j :: 0 <= i < j < |found| ==> found[i].hi <= found[j].lo)
    && (forall k :: k in Differ(src, dst, lo, at) ==> exists i :: 0 <= i < |found| && found[i].lo <= k < found[i].hi)
  }

  // The stack's ranges cover [at, hi) from its top down, each begun where
  // the one above it ends.
  ghost predicate Covers(todo: seq<Range>, at: int, hi: int) {
    if todo == [] then at == hi
    else
      var top := todo[|todo| - 1];
      top.lo == at && top.lo < top.hi && Covers(todo[..|todo| - 1], top.hi, hi)
  }

  ghost function TotalAsked(halves: (int, int) -> bool, todo: seq<Range>): nat {
    if todo == [] then 0 else
      var top := todo[|todo| - 1];
      TotalAsked(halves, todo[..|todo| - 1]) + Asked(halves, top.lo, top.hi)
  }

  // What is left to do: a range of n keys makes at most 2n - 1 pops.
  ghost function Work(todo: seq<Range>): int {
    if todo == [] then 0 else Work(todo[..|todo| - 1]) + 2 * (todo[|todo| - 1].hi - todo[|todo| - 1].lo) - 1
  }

  lemma {:induction false} WorkIsPositive(todo: seq<Range>, at: int, hi: int)
    requires Covers(todo, at, hi)
    ensures Work(todo) >= 0
  {
    if todo != [] {
      WorkIsPositive(todo[..|todo| - 1], todo[|todo| - 1].hi, hi);
    }
  }

  lemma {:induction false} ExactPasses<R>(src: map<int, R>, dst: map<int, R>, lo: int, at: int, hi: int, found: seq<Range>)
    requires Exact(src, dst, lo, at, found) && lo <= at <= hi && Differ(src, dst, at, hi) == {}
    ensures Exact(src, dst, lo, hi, found)
  {
    forall k | k in Differ(src, dst, lo, hi) ensures exists i :: 0 <= i < |found| && found[i].lo <= k < found[i].hi {
      assert k !in Differ(src, dst, at, hi);
      assert k in Differ(src, dst, lo, at);
    }
  }

  lemma {:induction false} ExactFinds<R>(src: map<int, R>, dst: map<int, R>, lo: int, at: int, hi: int, found: seq<Range>)
    requires Exact(src, dst, lo, at, found) && lo <= at < hi && Differ(src, dst, at, hi) != {}
    ensures Exact(src, dst, lo, hi, found + [Range(at, hi)])
  {
    var more := found + [Range(at, hi)];
    forall k | k in Differ(src, dst, lo, hi) ensures exists i :: 0 <= i < |more| && more[i].lo <= k < more[i].hi {
      if k < at {
        assert k in Differ(src, dst, lo, at);
        var i :| 0 <= i < |found| && found[i].lo <= k < found[i].hi;
        assert more[i] == found[i];
      } else {
        assert more[|found|] == Range(at, hi);
      }
    }
  }

  lemma {:induction false} Halved(halves: (int, int) -> bool, below: seq<Range>, top: Range, mid: int, hi: int)
    requires top.lo < mid < top.hi && Covers(below, top.hi, hi)
    ensures var next := below + [Range(mid, top.hi), Range(top.lo, mid)];
            && Covers(next, top.lo, hi)
            && Work(next) == Work(below) + 2 * (top.hi - top.lo) - 2
            && TotalAsked(halves, next)
            == TotalAsked(halves, below) + Asked(halves, top.lo, mid) + Asked(halves, mid, top.hi)
  {
    var one := below + [Range(mid, top.hi)];
    var next := below + [Range(mid, top.hi), Range(top.lo, mid)];
    assert next == one + [Range(top.lo, mid)];
    assert next[..|next| - 1] == one && one[..|one| - 1] == below;
  }

  function Next(todo: seq<Range>, halve: bool): seq<Range>
    requires todo != []
  {
    var below, top := todo[..|todo| - 1], todo[|todo| - 1];
    var mid := top.lo + (top.hi - top.lo) / 2;
    if halve then below + [Range(mid, top.hi), Range(top.lo, mid)] else below
  }

  // One pop and its two digests: one range fewer to ask, less work to do.
  lemma {:induction false} OnePop(halves: (int, int) -> bool, todo: seq<Range>, at: int, hi: int, halve: bool)
    requires todo != [] && Covers(todo, at, hi)
    requires var top := todo[|todo| - 1]; halve == (top.hi - top.lo >= 2 && halves(top.lo, top.hi))
    ensures var top := todo[|todo| - 1];
            && at == top.lo < top.hi <= hi
            && Covers(Next(todo, halve), if halve then at else top.hi, hi)
    ensures TotalAsked(halves, Next(todo, halve)) == TotalAsked(halves, todo) - 1
    ensures 0 <= Work(Next(todo, halve)) < Work(todo)
  {
    var below, top := todo[..|todo| - 1], todo[|todo| - 1];
    WorkIsPositive(below, top.hi, hi);
    CoversOrdered(below, top.hi, hi);
    if halve {
      Halved(halves, below, top, top.lo + (top.hi - top.lo) / 2, hi);
    }
  }

  // One range digested on both sides: equal, it is passed; a leaf, it is
  // found; else it is to be halved.
  method Visit<R(!new)>(srcDigest: Digester, dstDigest: Digester, leafRows: int, top: Range, found: seq<Range>,
                        ghost src: map<int, R>, ghost dst: map<int, R>, ghost lo: int)
    returns (more: seq<Range>, halve: bool)
    requires Truthful(srcDigest, dstDigest, src, dst) && lo <= top.lo < top.hi && Exact(src, dst, lo, top.lo, found)
    ensures halve == Halves(srcDigest, dstDigest, leafRows)(top.lo, top.hi)
    ensures halve ==> more == found && top.hi - top.lo >= 2
    ensures !halve ==> Exact(src, dst, lo, top.hi, more)
    ensures forall r :: r in more ==> r in found || (r == top && Small(srcDigest, dstDigest, leafRows, r))
  {
    more, halve := found, false;
    var a, b := srcDigest(top.lo, top.hi), dstDigest(top.lo, top.hi);
    if a == b {
      ExactPasses(src, dst, lo, top.lo, top.hi, found);
    } else if IsLeaf(a, b, leafRows, top.lo, top.hi) {
      ExactFinds(src, dst, lo, top.lo, top.hi, found);
      more := found + [Range(top.lo, top.hi)];
    } else {
      halve := true;
    }
  }

  // Exact and cheap: over [lo, hi) the found ranges are ascending, apart and
  // hold every differing key; two digests are asked a range, and no more
  // ranges than the halving needs.
  method FindRanges<R(!new)>(srcDigest: Digester, dstDigest: Digester, leafRows: int, lo: int, hi: int,
                             ghost src: map<int, R>, ghost dst: map<int, R>)
    returns (found: seq<Range>, asked: nat)
    requires Truthful(srcDigest, dstDigest, src, dst) && lo < hi
    ensures Exact(src, dst, lo, hi, found)
    ensures forall r :: r in found ==> Small(srcDigest, dstDigest, leafRows, r)
    ensures asked == 2 * Asked(Halves(srcDigest, dstDigest, leafRows), lo, hi)
  {
    ghost var halves := Halves(srcDigest, dstDigest, leafRows);
    var todo := [Range(lo, hi)];
    found, asked := [], 0;
    ghost var at := lo;
    assert todo[..0] == [] && Covers(todo, lo, hi);
    while todo != []
      invariant lo <= at <= hi && Covers(todo, at, hi) && Exact(src, dst, lo, at, found)
      invariant asked + 2 * TotalAsked(halves, todo) == 2 * Asked(halves, lo, hi)
      invariant forall r :: r in found ==> Small(srcDigest, dstDigest, leafRows, r)
      decreases Work(todo)
    {
      var top := todo[|todo| - 1];
      CoversOrdered(todo[..|todo| - 1], top.hi, hi);
      asked := asked + 2;
      var halve;
      found, halve := Visit(srcDigest, dstDigest, leafRows, top, found, src, dst, lo);
      OnePop(halves, todo, at, hi, halve);
      at := if halve then at else top.hi;
      todo := Next(todo, halve);
    }
  }

  lemma {:induction false} CoversOrdered(todo: seq<Range>, at: int, hi: int)
    requires Covers(todo, at, hi)
    ensures at <= hi
  {
    if todo != [] {
      CoversOrdered(todo[..|todo| - 1], todo[|todo| - 1].hi, hi);
    }
  }

  // ---- The whole comparison

  // The least and the greatest key, or None of an empty side.
  function KeyBounds<R>(rows: map<int, R>): (b: Option<Range>)
    ensures b.None? <==> rows == map[]
    ensures b.Some? ==> b.value.lo in rows && b.value.hi in rows && forall k :: k in rows ==> b.value.lo <= k <= b.value.hi
  {
    if rows == map[] then None
    else
      assert rows.Keys != {};
      Some(Range(Least(rows.Keys), Greatest(rows.Keys)))
  }

  // The key range both sides lie in; None where neither has a row.
  function WholeRange<R>(src: map<int, R>, dst: map<int, R>): (r: Option<Range>)
    ensures r.None? <==> src == map[] && dst == map[]
    ensures r.Some? ==> r.value.lo < r.value.hi
    ensures r.Some? ==> forall k :: k in src || k in dst ==> r.value.lo <= k < r.value.hi
  {
    var a, b := KeyBounds(src), KeyBounds(dst);
    if a.None? && b.None? then None
    else if a.None? then Some(Range(b.value.lo, b.value.hi + 1))
    else if b.None? then Some(Range(a.value.lo, a.value.hi + 1))
    else Some(Range(if a.value.lo < b.value.lo then a.value.lo else b.value.lo,
                    (if a.value.hi > b.value.hi then a.value.hi else b.value.hi) + 1))
  }

  // Past `at`, where the first i ranges end, the next difference is not
  // before the next range.
  lemma {:induction false} NothingBetween<R>(src: map<int, R>, dst: map<int, R>, lo: int, at: int, found: seq<Range>, i: nat, end: int, k: int)
    requires Exact(src, dst, lo, end, found) && i <= |found| && at == if i > 0 then found[i - 1].hi else lo
    requires k in Differ(src, dst, lo, end) && at <= k
    ensures i < |found| && found[i].lo <= k
  {
    var j :| 0 <= j < |found| && found[j].lo <= k < found[j].hi;
    assert j >= i;
  }

  lemma {:induction false} NoneBetween<R>(src: map<int, R>, dst: map<int, R>, lo: int, at: int, found: seq<Range>, i: nat, end: int, next: int)
    requires lo <= end && Exact(src, dst, lo, end, found) && i <= |found| && at == if i > 0 then found[i - 1].hi else lo
    requires next == if i < |found| then found[i].lo else end
    ensures Missing(src, dst, lo, next) == Missing(src, dst, lo, at)
    ensures Changed(src, dst, lo, next) == Changed(src, dst, lo, at)
    ensures Extra(src, dst, lo, next) == Extra(src, dst, lo, at)
  {
    if i > 0 && i < |found| {
      assert found[i - 1].hi <= found[i].lo;
    }
    assert lo <= at <= next <= end;
    forall k | k in Differ(src, dst, lo, next) ensures k < at {
      assert k in Differ(src, dst, lo, end);
      if at <= k { NothingBetween(src, dst, lo, at, found, i, end, k); }
    }
    forall k ensures k in Differ(src, dst, lo, next) ==> k in Differ(src, dst, lo, at) {}
    forall k ensures k in Missing(src, dst, lo, next) <==> k in Missing(src, dst, lo, at) {
      assert k in Missing(src, dst, lo, next) ==> k in Differ(src, dst, lo, next);
    }
    forall k ensures k in Changed(src, dst, lo, next) <==> k in Changed(src, dst, lo, at) {
      assert k in Changed(src, dst, lo, next) ==> k in Differ(src, dst, lo, next);
    }
    forall k ensures k in Extra(src, dst, lo, next) <==> k in Extra(src, dst, lo, at) {
      assert k in Extra(src, dst, lo, next) ==> k in Differ(src, dst, lo, next);
    }
  }

  lemma {:induction false} CountsAdd<R>(src: map<int, R>, dst: map<int, R>, lo: int, mid: int, hi: int)
    requires lo <= mid <= hi
    ensures |Missing(src, dst, lo, hi)| == |Missing(src, dst, lo, mid)| + |Missing(src, dst, mid, hi)|
    ensures |Changed(src, dst, lo, hi)| == |Changed(src, dst, lo, mid)| + |Changed(src, dst, mid, hi)|
    ensures |Extra(src, dst, lo, hi)| == |Extra(src, dst, lo, mid)| + |Extra(src, dst, mid, hi)|
  {
    assert Missing(src, dst, lo, hi) == Missing(src, dst, lo, mid) + Missing(src, dst, mid, hi);
    assert Changed(src, dst, lo, hi) == Changed(src, dst, lo, mid) + Changed(src, dst, mid, hi);
    assert Extra(src, dst, lo, hi) == Extra(src, dst, lo, mid) + Extra(src, dst, mid, hi);
  }

  // The three lists the found ranges give, counted range by range.
  method CountFound<R(==)>(src: map<int, R>, dst: map<int, R>, found: seq<Range>, ghost lo: int, ghost hi: int)
    returns (missing: nat, changed: nat, extra: nat)
    requires lo <= hi && Exact(src, dst, lo, hi, found)
    ensures missing == |Missing(src, dst, lo, hi)| && changed == |Changed(src, dst, lo, hi)| && extra == |Extra(src, dst, lo, hi)|
  {
    missing, changed, extra := 0, 0, 0;
    ghost var at := lo;
    for i := 0 to |found|
      invariant at == if i > 0 then found[i - 1].hi else lo
      invariant missing == |Missing(src, dst, lo, at)| && changed == |Changed(src, dst, lo, at)| && extra == |Extra(src, dst, lo, at)|
    {
      var r := found[i];
      NoneBetween(src, dst, lo, at, found, i, hi, r.lo);
      CountsAdd(src, dst, lo, r.lo, r.hi);
      missing := missing + |Missing(src, dst, r.lo, r.hi)|;
      changed := changed + |Changed(src, dst, r.lo, r.hi)|;
      extra := extra + |Extra(src, dst, r.lo, r.hi)|;
      at := r.hi;
    }
    NoneBetween(src, dst, lo, at, found, |found|, hi, hi);
  }

  lemma {:induction false} KindsAdd<R>(src: map<int, R>, dst: map<int, R>, lo: int, hi: int)
    ensures |Differ(src, dst, lo, hi)| == |Missing(src, dst, lo, hi)| + |Changed(src, dst, lo, hi)| + |Extra(src, dst, lo, hi)|
  {
    assert Missing(src, dst, lo, hi) !! Changed(src, dst, lo, hi) !! Extra(src, dst, lo, hi);
  }

  lemma {:induction false} FewAsked<R(!new)>(a: Digester, b: Digester, src: map<int, R>, dst: map<int, R>, leafRows: int, lo: int, hi: int, got: Answer)
    requires Truthful(a, b, src, dst) && lo < hi && got.digests == 2 * Asked(Halves(a, b, leafRows), lo, hi)
    requires got.missing + got.changed + got.extra == |Missing(src, dst, lo, hi)| + |Changed(src, dst, lo, hi)| + |Extra(src, dst, lo, hi)|
    ensures got.digests <= Limit(got.missing + got.changed + got.extra, hi - lo)
  {
    KindsAdd(src, dst, lo, hi);
    AskedIsBounded(a, b, src, dst, leafRows, lo, hi);
  }

  // One key range compared, whatever digests the sides give.
  method CompareRange<R(==,!new)>(a: Digester, b: Digester, src: map<int, R>, dst: map<int, R>, leafRows: int, lo: int, hi: int)
    returns (got: Answer)
    requires Truthful(a, b, src, dst) && lo < hi
    ensures got.missing == |Missing(src, dst, lo, hi)| && got.changed == |Changed(src, dst, lo, hi)| && got.extra == |Extra(src, dst, lo, hi)|
    ensures got.digests <= Limit(got.missing + got.changed + got.extra, hi - lo)
  {
    var found, asked := FindRanges(a, b, leafRows, lo, hi, src, dst);
    var missing, changed, extra := CountFound(src, dst, found, lo, hi);
    got := Answer(missing, changed, extra, asked);
    FewAsked(a, b, src, dst, leafRows, lo, hi, got);
  }

  lemma {:induction false} WholeIsAll<R>(src: map<int, R>, dst: map<int, R>, lo: int, hi: int)
    requires forall k :: k in src || k in dst ==> lo <= k < hi
    ensures Missing(src, dst, lo, hi) == set k | k in src && k !in dst
    ensures Changed(src, dst, lo, hi) == set k | k in src && k in dst && src[k] != dst[k]
    ensures Extra(src, dst, lo, hi) == set k | k in dst && k !in src
  {
  }

  // The differences of the found ranges add up to the whole difference.
  method Compare<R(==,!new)>(hash: map<int, R> -> int, src: map<int, R>, dst: map<int, R>, leafRows: int) returns (got: Option<Answer>)
    requires Faithful(hash)
    ensures got.None? <==> src == map[] && dst == map[]
    ensures got.Some? ==>
              && got.value.missing == |set k | k in src && k !in dst|
              && got.value.changed == |set k | k in src && k in dst && src[k] != dst[k]|
              && got.value.extra == |set k | k in dst && k !in src|
    ensures got.Some? ==>
              var whole := WholeRange(src, dst).value;
              got.value.digests <= Limit(got.value.missing + got.value.changed + got.value.extra, whole.hi - whole.lo)
  {
    var whole := WholeRange(src, dst);
    if whole.None? {
      return None;
    }
    var lo, hi := whole.value.lo, whole.value.hi;
    FaithfulIsTruthful(hash, src, dst);
    var answer := CompareRange(DigestsOf(hash, src), DigestsOf(hash, dst), src, dst, leafRows, lo, hi);
    WholeIsAll(src, dst, lo, hi);
    got := Some(answer);
  }
}
