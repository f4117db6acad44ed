// Text cut at a character: at the first, at the last, and at every one.
module Text {
  // Where the first c is, the length where there is none.
  function Until(s: string, c: char): (i: nat)
    ensures i <= |s| && c !in s[..i] && (i < |s| ==> s[i] == c) && (i < |s| <==> c in s)
  {
    if s == [] || s[0] == c then 0
    else
      assert s == [s[0]] + s[1..];
      assert s[..1 + Until(s[1..], c)] == [s[0]] + s[1..][..Until(s[1..], c)];
      1 + Until(s[1..], c)
  }

  // What stands before the first c, and after it: all, and nothing, where
  // there is none.
  function Head(s: string, c: char): string { s[..Until(s, c)] }

  function Tail(s: string, c: char): string { if Until(s, c) < |s| then s[Until(s, c) + 1..] else [] }

  lemma {:induction false} UntilIs(a: string, c: char, b: string)
    requires c !in a
    ensures Until(a, c) == |a| && Until(a + [c] + b, c) == |a|
  {
    if a != [] {
      assert a == [a[0]] + a[1..];
      assert (a + [c] + b)[1..] == a[1..] + [c] + b;
      UntilIs(a[1..], c, b);
    }
  }

  lemma {:induction false} Cuts(a: string, c: char, b: string)
    requires c !in a
    ensures Head(a + [c] + b, c) == a && Tail(a + [c] + b, c) == b
    ensures Head(a, c) == a && Tail(a, c) == []
  {
    UntilIs(a, c, b);
    var s := a + [c] + b;
    assert s[..|a|] == a && s[|a| + 1..] == b && a[..|a|] == a;
  }

  // Where what follows the last c begins: 0 where there is none.
  function PastLast(s: string, c: char): (k: nat)
    ensures k <= |s| && (k > 0 ==> s[k - 1] == c) && c !in s[k..]
  {
    if s == [] then 0
    else if s[|s| - 1] == c then |s|
    else
      var k := PastLast(s[..|s| - 1], c);
      assert s[k..] == s[..|s| - 1][k..] + [s[|s| - 1]];
      k
  }

  // What stands before the last c, and after it: nothing, and all, where
  // there is none.
  function LastHead(s: string, c: char): string { if PastLast(s, c) > 0 then s[..PastLast(s, c) - 1] else [] }

  function LastTail(s: string, c: char): string { s[PastLast(s, c)..] }

  lemma {:induction false} PastLastIs(a: string, c: char, b: string)
    requires c !in b
    ensures PastLast(a + [c] + b, c) == |a| + 1 && PastLast(b, c) == 0
  {
    if b != [] {
      var less := b[..|b| - 1];
      assert b == less + [b[|b| - 1]];
      assert (a + [c] + b)[..|a| + |b|] == a + [c] + less;
      PastLastIs(a, c, less);
    }
  }

  lemma {:induction false} CutsLast(a: string, c: char, b: string)
    requires c !in b
    ensures LastHead(a + [c] + b, c) == a && LastTail(a + [c] + b, c) == b
    ensures LastHead(b, c) == [] && LastTail(b, c) == b
  {
    PastLastIs(a, c, b);
    var s := a + [c] + b;
    assert s[..|a|] == a && s[|a| + 1..] == b;
  }

  function Split(s: string, c: char): (parts: seq<string>)
    ensures parts != [] && forall p :: p in parts ==> c !in p
    decreases |s|
  {
    if c !in s then [s]
    else [Head(s, c)] + Split(Tail(s, c), c)
  }

  function Join(parts: seq<string>, c: char): string {
    if parts == [] then [] else if |parts| == 1 then parts[0] else parts[0] + [c] + Join(parts[1..], c)
  }

  lemma {:induction false} JoinSplits(parts: seq<string>, c: char)
    requires parts != [] && forall p :: p in parts ==> c !in p
    ensures Split(Join(parts, c), c) == parts
  {
    assert parts[0] in parts;
    if |parts| == 1 {
      UntilIs(parts[0], c, []);
    } else {
      forall p | p in parts[1..] ensures c !in p { assert p in parts; }
      JoinSplits(parts[1..], c);
      Cuts(parts[0], c, Join(parts[1..], c));
      UntilIs(parts[0], c, Join(parts[1..], c));
      assert parts == [parts[0]] + parts[1..];
    }
  }

  function NonEmpty(parts: seq<string>): (r: seq<string>)
    ensures forall p :: p in r <==> p in parts && p != []
  {
    if parts == [] then []
    else
      assert parts == [parts[0]] + parts[1..];
      (if parts[0] == [] then [] else [parts[0]]) + NonEmpty(parts[1..])
  }

  lemma {:induction false} AllNonEmpty(parts: seq<string>)
    requires forall p :: p in parts ==> p != []
    ensures NonEmpty(parts) == parts
  {
    if parts != [] {
      assert parts[0] in parts;
      forall p | p in parts[1..] ensures p != [] { assert p in parts; }
      AllNonEmpty(parts[1..]);
      assert parts == [parts[0]] + parts[1..];
    }
  }

  // Joined, split and the empty ones dropped: the same parts exactly where
  // none is empty or holds the character.
  lemma {:induction false} PartsBackExactly(parts: seq<string>, c: char)
    ensures NonEmpty(Split(Join(parts, c), c)) == parts <==> forall p :: p in parts ==> p != [] && c !in p
  {
    if forall p :: p in parts ==> p != [] && c !in p {
      AllNonEmpty(parts);
      if parts != [] {
        JoinSplits(parts, c);
      } else {
        assert Split([], c) == [[]];
      }
    }
  }
}
