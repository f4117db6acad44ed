// Where the values of a list first and last occur: what `dict.fromkeys`,
// `dict(zip(keys, range(m)))` and its reversed twin hold.
module Occurrences {
  function Upto(n: nat): (s: seq<nat>)
    ensures |s| == n && forall i :: 0 <= i < n ==> s[i] == i
  {
    seq(n, i requires 0 <= i < n => i)
  }

  ghost predicate Distinct<K>(s: seq<K>) {
    forall i, j :: 0 <= i < j < |s| ==> s[i] != s[j]
  }

  // The values of `keys`, each once, in the order each first comes.
  function FirstTouched<K(==,!new)>(keys: seq<K>): (s: seq<K>)
    ensures Distinct(s)
    ensures forall k :: k in s <==> k in keys
  {
    if keys == [] then []
    else
      var before := FirstTouched(keys[..|keys| - 1]);
      if keys[|keys| - 1] in before then before else before + [keys[|keys| - 1]]
  }

  // Later positions over earlier ones: where each value comes last.
  function LastAt<K(==,!new)>(keys: seq<K>): (m: map<K, nat>)
    ensures forall k :: k in m <==> k in keys
    ensures forall k :: k in m ==> IsLast(keys, k, m[k])
  {
    if keys == [] then map[]
    else LastAt(keys[..|keys| - 1])[keys[|keys| - 1] := |keys| - 1]
  }

  // Earlier positions over later ones, read from the end: where each value
  // of `keys[from..]` comes first.
  function FirstFrom<K(==,!new)>(keys: seq<K>, from: nat): (m: map<K, nat>)
    requires from <= |keys|
    ensures forall k :: k in m <==> k in keys[from..]
    ensures forall k :: k in m ==> from <= m[k] && IsFirst(keys, from, k, m[k])
    decreases |keys| - from
  {
    if from == |keys| then map[] else
      assert keys[from..] == [keys[from]] + keys[from + 1..];
      FirstFrom(keys, from + 1)[keys[from] := from]
  }

  function FirstAt<K(==,!new)>(keys: seq<K>): (m: map<K, nat>)
    ensures forall k :: k in m <==> k in keys
    ensures forall k :: k in m ==> IsFirst(keys, 0, k, m[k])
  {
    assert keys[0..] == keys;
    FirstFrom(keys, 0)
  }

  ghost predicate IsLast<K>(keys: seq<K>, k: K, i: nat) {
    i < |keys| && keys[i] == k && forall j :: i < j < |keys| ==> keys[j] != k
  }

  ghost predicate IsFirst<K>(keys: seq<K>, from: nat, k: K, i: nat) {
    i < |keys| && keys[i] == k && forall j :: from <= j < i ==> keys[j] != k
  }

  // A value seen before is found where it was found before.
  lemma {:induction false} FirstAtGrows<K(!new)>(keys: seq<K>, k: K)
    requires keys != [] && k in keys[..|keys| - 1]
    ensures k in keys && FirstAt(keys)[k] == FirstAt(keys[..|keys| - 1])[k]
  {
    var n := |keys| - 1;
    var i :| 0 <= i < n && keys[..n][i] == k;
    assert keys[i] == k;
    var a, b := FirstAt(keys)[k], FirstAt(keys[..n])[k];
    assert IsFirst(keys, 0, k, a) && IsFirst(keys[..n], 0, k, b);
    assert keys[b] == k && (a < n ==> keys[..n][a] == k);
  }

  // First touches come in order.
  lemma {:induction false} FirstTouchedInOrder<K(!new)>(keys: seq<K>, i: nat, j: nat)
    requires i < j < |FirstTouched(keys)|
    ensures FirstTouched(keys)[i] in keys && FirstTouched(keys)[j] in keys
    ensures FirstAt(keys)[FirstTouched(keys)[i]] < FirstAt(keys)[FirstTouched(keys)[j]]
  {
    var n := |keys| - 1;
    var before, order := FirstTouched(keys[..n]), FirstTouched(keys);
    assert order[i] in order && order[j] in order;
    assert before[i] in before;
    FirstAtGrows(keys, before[i]);
    if j < |before| {
      assert before[j] in before;
      FirstTouchedInOrder(keys[..n], i, j);
      FirstAtGrows(keys, before[j]);
    } else {
      assert IsFirst(keys, 0, order[j], FirstAt(keys)[order[j]]);
      assert forall m :: 0 <= m < n ==> keys[m] in keys[..n];
    }
  }

  // The positions of `k`, ascending.
  function Positions<K(==,!new)>(keys: seq<K>, k: K): (at: seq<nat>)
    ensures forall i :: 0 <= i < |at| ==> at[i] < |keys| && keys[at[i]] == k
    ensures forall i, j :: 0 <= i < j < |at| ==> at[i] < at[j]
    ensures forall i: nat :: i < |keys| && keys[i] == k ==> i in at
  {
    if keys == [] then []
    else
      var before := Positions(keys[..|keys| - 1], k);
      if keys[|keys| - 1] == k then before + [|keys| - 1] else before
  }

  // What stands at the positions `at`.
  function Sub<T>(xs: seq<T>, at: seq<nat>): (s: seq<T>)
    requires forall i :: 0 <= i < |at| ==> at[i] < |xs|
    ensures |s| == |at| && forall i :: 0 <= i < |at| ==> s[i] == xs[at[i]]
  {
    seq(|at|, i requires 0 <= i < |at| => xs[at[i]])
  }

  lemma {:induction false} PositionsGrow<K(!new)>(keys: seq<K>, k: K, x: K)
    ensures Positions(keys + [x], k) == if x == k then Positions(keys, k) + [|keys|] else Positions(keys, k)
  {
    assert (keys + [x])[..|keys|] == keys;
  }

  lemma {:induction false} SubGrows<T>(xs: seq<T>, x: T, at: seq<nat>)
    requires forall i :: 0 <= i < |at| ==> at[i] < |xs|
    ensures Sub(xs + [x], at) == Sub(xs, at)
    ensures Sub(xs + [x], at + [|xs|]) == Sub(xs, at) + [x]
  {
  }
}
