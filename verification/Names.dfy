// Names in the order of their characters, and lists of them sorted.
module Names {
  type Name = string

  predicate AtMost(a: Name, b: Name) {
    a == [] || (b != [] && (a[0] < b[0] || (a[0] == b[0] && AtMost(a[1..], b[1..]))))
  }

  lemma {:induction false} Total(a: Name, b: Name)
    ensures AtMost(a, b) || AtMost(b, a)
    ensures AtMost(a, b) && AtMost(b, a) ==> a == b
  {
    if a != [] && b != [] && a[0] == b[0] {
      Total(a[1..], b[1..]);
      assert a == [a[0]] + a[1..] && b == [b[0]] + b[1..];
    }
  }

  lemma {:induction false} Transitive(a: Name, b: Name, c: Name)
    requires AtMost(a, b) && AtMost(b, c)
    ensures AtMost(a, c)
  {
    if a != [] && a[0] == b[0] && b[0] == c[0] {
      Transitive(a[1..], b[1..], c[1..]);
    }
  }

  ghost predicate Sorted(s: seq<Name>) { forall i, j :: 0 <= i < j < |s| ==> AtMost(s[i], s[j]) }

  function These(left: seq<Name>): (s: set<Name>)
    ensures forall t :: t in s <==> t in left
  {
    set t | t in left
  }

  function Insert(s: seq<Name>, x: Name): (r: seq<Name>)
    ensures multiset(r) == multiset(s) + multiset{x}
  {
    if s == [] then [x]
    else if AtMost(x, s[0]) then [x] + s
    else
      assert s == [s[0]] + s[1..];
      [s[0]] + Insert(s[1..], x)
  }

  lemma {:induction false} InsertSorted(s: seq<Name>, x: Name)
    requires Sorted(s)
    ensures Sorted(Insert(s, x))
  {
    if s == [] {
    } else if AtMost(x, s[0]) {
      forall j | 0 <= j < |s| ensures AtMost(x, s[j]) {
        if j > 0 { Transitive(x, s[0], s[j]); }
      }
    } else {
      Total(x, s[0]);
      InsertSorted(s[1..], x);
      var rest := Insert(s[1..], x);
      forall j | 0 <= j < |rest| ensures AtMost(s[0], rest[j]) {
        assert rest[j] in multiset(rest);
        assert rest[j] in multiset(s[1..]) + multiset{x};
        if rest[j] != x {
          var k :| 0 <= k < |s[1..]| && s[1..][k] == rest[j];
          assert AtMost(s[0], s[k + 1]);
        }
      }
    }
  }

  method Sort(names: seq<Name>) returns (s: seq<Name>)
    ensures Sorted(s) && multiset(s) == multiset(names)
  {
    s := [];
    for i := 0 to |names|
      invariant Sorted(s) && multiset(s) == multiset(names[..i])
    {
      InsertSorted(s, names[i]);
      s := Insert(s, names[i]);
      assert names[..i + 1] == names[..i] + [names[i]];
    }
    assert names[..|names|] == names;
  }

  // The names of a set, in some order.
  method Listed(names: set<Name>) returns (s: seq<Name>)
    ensures forall t :: t in s <==> t in names
    ensures forall i, j :: 0 <= i < j < |s| ==> s[i] != s[j]
  {
    var left := names;
    s := [];
    while left != {}
      invariant left <= names && forall t :: t in s <==> t in names - left
      invariant forall i, j :: 0 <= i < j < |s| ==> s[i] != s[j]
      decreases |left|
    {
      var t :| t in left;
      s, left := s + [t], left - {t};
    }
  }

  lemma {:induction false} OneMore<T>(s: seq<T>, i: nat)
    requires i < |s|
    ensures s[..i + 1] == s[..i] + [s[i]]
  {
  }

  lemma {:induction false} OneMoreOf(s: seq<Name>, x: Name)
    ensures These(s + [x]) == These(s) + {x}
  {
  }

  // As many of each name, none of them twice.
  lemma {:induction false} OnceEach(names: seq<Name>, out: seq<Name>)
    requires multiset(out) == multiset(names)
    requires forall i, j :: 0 <= i < j < |names| ==> names[i] != names[j]
    ensures forall i, j :: 0 <= i < j < |out| ==> out[i] != out[j]
  {
    forall i, j | 0 <= i < j < |out| ensures out[i] != out[j] {
      AtMostOnce(names, out[i]);
      assert out == out[..i] + [out[i]] + out[i + 1..j] + [out[j]] + out[j + 1..];
    }
  }

  lemma {:induction false} AtMostOnce(names: seq<Name>, t: Name)
    requires forall i, j :: 0 <= i < j < |names| ==> names[i] != names[j]
    ensures multiset(names)[t] <= 1
  {
    if names != [] {
      assert names == [names[0]] + names[1..];
      AtMostOnce(names[1..], t);
      if names[0] == t {
        forall k | 0 <= k < |names| - 1 ensures names[1..][k] != t { assert names[0] != names[k + 1]; }
      }
    }
  }
}
