// The least and the greatest member of a set of whole numbers.
module Extremes {
  ghost function Pick<T>(s: set<T>): (x: T)
    requires s != {}
    ensures x in s
  {
    var x :| x in s;
    x
  }

  ghost predicate IsLeast(m: int, s: set<int>) { m in s && forall x :: x in s ==> m <= x }

  ghost predicate IsGreatest(m: int, s: set<int>) { m in s && forall x :: x in s ==> x <= m }

  lemma {:induction false} HasLeast(s: set<int>)
    requires s != {}
    ensures exists m :: IsLeast(m, s)
  {
    var a := Pick(s);
    if forall x :: x in s ==> x == a {
      assert IsLeast(a, s);
    } else {
      var rest := s - {a};
      var other :| other in s && other != a;
      assert other in rest;
      HasLeast(rest);
      var m :| IsLeast(m, rest);
      assert forall x :: x in s ==> x == a || x in rest;
      assert IsLeast(if a < m then a else m, s);
    }
  }

  lemma {:induction false} HasGreatest(s: set<int>)
    requires s != {}
    ensures exists m :: IsGreatest(m, s)
  {
    var a := Pick(s);
    if forall x :: x in s ==> x == a {
      assert IsGreatest(a, s);
    } else {
      var rest := s - {a};
      var other :| other in s && other != a;
      assert other in rest;
      HasGreatest(rest);
      var m :| IsGreatest(m, rest);
      assert forall x :: x in s ==> x == a || x in rest;
      assert IsGreatest(if a > m then a else m, s);
    }
  }

  function Least(s: set<int>): (m: int)
    requires s != {}
    ensures IsLeast(m, s)
  {
    HasLeast(s);
    var m :| m in s && forall x :: x in s ==> m <= x;
    m
  }

  function Greatest(s: set<int>): (m: int)
    requires s != {}
    ensures IsGreatest(m, s)
  {
    HasGreatest(s);
    var m :| m in s && forall x :: x in s ==> x <= m;
    m
  }
}
