// A failing input made smaller while it still fails
// (`migkit/ai_proof_loop.py`).
module Minimizer {
  // A truth value counts as a whole number.
  datatype Value = Int(n: int) | Bool(b: bool) | Text(s: string) | List(items: seq<Value>) | Other(tag: int)

  type Input = map<string, Value>

  // Whether source and target differ on an input; the same answer each time.
  type Fails = Input -> bool

  // ---- Dropping keys

  function DropPass(current: Input, keys: seq<string>, fails: Fails): Input
    decreases |keys|
  {
    if keys == [] || |current| <= 1 then current
    else
      var candidate := current - {keys[0]};
      DropPass(if fails(candidate) then candidate else current, keys[1..], fails)
  }

  method DropKeys(input: Input, keys: seq<string>, fails: Fails) returns (current: Input)
    ensures current == DropPass(input, keys, fails)
  {
    current := input;
    var i := 0;
    while i < |keys|
      invariant 0 <= i <= |keys| && DropPass(current, keys[i..], fails) == DropPass(input, keys, fails)
    {
      if |current| <= 1 {
        break;
      }
      assert keys[i..][1..] == keys[i + 1..];
      var candidate := current - {keys[i]};
      if fails(candidate) {
        current := candidate;
      }
      i := i + 1;
    }
  }

  ghost predicate Within(a: Input, b: Input) { a.Keys <= b.Keys && forall k :: k in a ==> a[k] == b[k] }

  lemma {:induction false} DropPassFails(input: Input, keys: seq<string>, fails: Fails)
    requires fails(input)
    ensures var out := DropPass(input, keys, fails); fails(out) && Within(out, input) && (input != map[] ==> out != map[])
    decreases |keys|
  {
    if keys != [] && |input| > 1 {
      var candidate := input - {keys[0]};
      if candidate == map[] {
        OneKeyLeft(input, keys[0]);
      }
      DropPassFails(if fails(candidate) then candidate else input, keys[1..], fails);
    }
  }

  lemma {:induction false} OneKeyLeft(input: Input, k: string)
    requires input - {k} == map[]
    ensures |input| <= 1
  {
    assert (input - {k}).Keys == {};
    assert forall x :: x in input.Keys && x != k ==> x in input.Keys - {k};
    assert input.Keys == if k in input.Keys then {k} else {};
    assert |input| == |input.Keys|;
  }

  // Failing on part of the input is failing on all that holds the part.
  ghost predicate Upward(input: Input, fails: Fails) {
    forall a, b :: Within(a, b) && Within(b, input) && fails(a) ==> fails(b)
  }

  // Then, where more than one key is left, none that was tried can go.
  lemma {:induction false} DropPassMinimal(input: Input, keys: seq<string>, fails: Fails)
    requires fails(input) && Upward(input, fails)
    ensures var out := DropPass(input, keys, fails);
            |out| <= 1 || forall k :: k in keys && k in out ==> !fails(out - {k})
    decreases |keys|
  {
    if keys != [] && |input| > 1 {
      var candidate, out := input - {keys[0]}, DropPass(input, keys, fails);
      if fails(candidate) {
        UpwardWithin(input, candidate, fails);
        DropPassFails(candidate, keys[1..], fails);
        DropPassMinimal(candidate, keys[1..], fails);
      } else {
        DropPassFails(input, keys[1..], fails);
        DropPassMinimal(input, keys[1..], fails);
        assert Within(out - {keys[0]}, candidate) && Within(candidate, input);
      }
      assert forall k :: k in keys ==> k == keys[0] || k in keys[1..];
    }
  }

  lemma {:induction false} UpwardWithin(input: Input, part: Input, fails: Fails)
    requires Upward(input, fails) && Within(part, input)
    ensures Upward(part, fails)
  {
    forall a, b | Within(a, b) && Within(b, part) && fails(a) ensures fails(b) {
      assert Within(b, input);
    }
  }

  lemma {:induction false} OneTry(current: Input, k: string, keys: seq<string>, fails: Fails)
    requires |current| > 1
    ensures DropPass(current, [k] + keys, fails) == DropPass(if fails(current - {k}) then current - {k} else current, keys, fails)
  {
    assert ([k] + keys)[1..] == keys;
  }

  predicate FailsOnSome(x: Input) {
    x.Keys == {"a", "b", "c"} || x.Keys == {"a", "c"} || x.Keys == {"c"}
  }

  lemma {:induction false} Without(input: Input, k: string)
    ensures (input - {k}).Keys == input.Keys - {k} && |input| == |input.Keys|
  {
  }

  // Only the second of the three keys can be dropped when it is tried.
  lemma {:induction false} SecondGoes(input: Input)
    requires input.Keys == {"a", "b", "c"}
    ensures !FailsOnSome(input - {"a"}) && FailsOnSome(input - {"b"}) && !FailsOnSome(input - {"b"} - {"c"})
    ensures |input| == 3 && |input - {"b"}| == 2 && (input - {"b"}).Keys == {"a", "c"}
  {
    Without(input, "a");
    Without(input, "b");
    Without(input - {"b"}, "c");
    assert "b" in (input - {"a"}).Keys && "a" in (input - {"b"} - {"c"}).Keys && "c" !in (input - {"b"} - {"c"}).Keys;
  }

  // Where failing on a part says nothing of the whole, a key can be left that
  // could go: tried too early.
  lemma {:induction false} DropPassCanStop(v: Value)
    ensures var input := map["a" := v, "b" := v, "c" := v];
            var out := DropPass(input, ["a", "b", "c"], FailsOnSome);
            out.Keys == {"a", "c"} && FailsOnSome(out) && FailsOnSome(out - {"a"})
  {
    var input := map["a" := v, "b" := v, "c" := v];
    assert input.Keys == {"a", "b", "c"};
    SecondGoes(input);
    ThreeTries(input);
    Without(input - {"b"}, "a");
  }

  lemma {:induction false} ThreeTries(input: Input)
    requires !FailsOnSome(input - {"a"}) && FailsOnSome(input - {"b"}) && !FailsOnSome(input - {"b"} - {"c"})
    requires |input| == 3 && |input - {"b"}| == 2
    ensures DropPass(input, ["a", "b", "c"], FailsOnSome) == input - {"b"}
  {
    assert ["a"] + ["b", "c"] == ["a", "b", "c"] && ["b"] + ["c"] == ["b", "c"] && ["c"] + [] == ["c"];
    OneTry(input, "a", ["b", "c"], FailsOnSome);
    OneTry(input, "b", ["c"], FailsOnSome);
    OneTry(input - {"b"}, "c", [], FailsOnSome);
  }

  // ---- Shrinking one value

  function Abs(n: int): nat { if n < 0 then -n else n }

  function Number(v: Value): int
    requires v.Int? || v.Bool?
  {
    if v.Int? then v.n else if v.b then 1 else 0
  }

  // No further from nothing: a number no larger - but for false, which counts
  // as 0 and can become 1 - a text or list cut short.
  predicate Smaller(v: Value, w: Value) {
    match v
    case Int(n) => (w.Int? || w.Bool?) && (Abs(n) <= Abs(Number(w)) || (w == Bool(false) && Abs(n) == 1))
    case Text(s) => w.Text? && s <= w.s
    case List(items) => w.List? && items <= w.items
    case _ => v == w
  }

  // The same input but for a smaller value at k, failing still.
  ghost predicate Shrunk(input: Input, k: string, fails: Fails, out: Input) {
    k in input && out.Keys == input.Keys && fails(out) && (out[k] == input[k] || Smaller(out[k], input[k]))
    && forall x :: x in input && x != k ==> out[x] == input[x]
  }

  // Nothing the shrinking tries on the value is left to try.
  ghost predicate Stuck(out: Input, k: string, fails: Fails)
    requires k in out
  {
    match out[k]
    case Int(n) => n == 0 || (!fails(out[k := Int(0)]) && (n == 1 || !fails(out[k := Int(1)]))
                              && (Abs(n) <= 1 || (!fails(out[k := Int(-1)]) && !fails(out[k := Int(n / 2)]))))
    case Text(s) => s == [] || (!fails(out[k := Text([])])
                                && (|s| <= 1 || (!fails(out[k := Text(s[..1])]) && (|s| == 2 || !fails(out[k := Text(s[..|s| / 2])])))))
    case List(items) => items == [] || (!fails(out[k := List([])]) && (|items| == 1 || !fails(out[k := List(items[..|items| / 2])])))
    case _ => true
  }

  lemma {:induction false} SetAgain(current: Input, k: string, v: Value, w: Value)
    requires k in current
    ensures current[k := v][k := w] == current[k := w] && current[k := current[k]] == current
  {
  }

  // The first of 0, 1 and -1 it still fails with, or the input as it is: all
  // that is tried on a truth value.
  function SmallestTried(input: Input, k: string, fails: Fails): Input {
    if fails(input[k := Int(0)]) then input[k := Int(0)]
    else if fails(input[k := Int(1)]) then input[k := Int(1)]
    else if fails(input[k := Int(-1)]) then input[k := Int(-1)]
    else input
  }

  // It fails on false as it is and with 1 or -1 in its place, but not with 0.
  predicate Grows(input: Input, k: string, fails: Fails)
    requires k in input
  {
    input[k] == Bool(false) && !fails(input[k := Int(0)]) && (fails(input[k := Int(1)]) || fails(input[k := Int(-1)]))
  }

  // Then, and only then, is the value left further from nothing than it was.
  method ShrinkNumber(input: Input, k: string, fails: Fails) returns (out: Input)
    requires k in input && (input[k].Int? || input[k].Bool?) && fails(input)
    ensures Shrunk(input, k, fails, out)
    ensures input[k].Int? ==> Stuck(out, k, fails)
    ensures input[k].Bool? ==> out == SmallestTried(input, k, fails)
    ensures out[k].Int? || out[k].Bool?
    ensures Abs(Number(out[k])) > Abs(Number(input[k])) <==> Grows(input, k, fails)
  {
    out := input;
    SetAgain(input, k, input[k], input[k]);
    if fails(input[k := Int(0)]) {
      return input[k := Int(0)];
    }
    if fails(input[k := Int(1)]) {
      out := input[k := Int(1)];
    } else if fails(input[k := Int(-1)]) {
      out := input[k := Int(-1)];
    }
    var val := Number(out[k]);
    while Abs(val) > 1
      invariant Shrunk(input, k, fails, out) && Number(out[k]) == val
      invariant out == input || out == input[k := Int(val)]
      invariant val != 1 ==> !fails(input[k := Int(1)]) || !input[k].Int?
      invariant Abs(val) > 1 ==> !fails(input[k := Int(1)]) && !fails(input[k := Int(-1)])
      invariant input[k].Int? ==> Abs(val) <= Abs(Number(input[k]))
      invariant input[k].Bool? ==> Abs(val) <= 1 && out == SmallestTried(input, k, fails)
      decreases Abs(val)
    {
      var half := val / 2;
      Tried(input, k, val, half);
      if !fails(out[k := Int(half)]) {
        break;
      }
      out, val := out[k := Int(half)], half;
    }
    Tried(input, k, val, val / 2);
  }

  // Such an input: it fails wherever the value is not the number 0.
  lemma {:induction false} FalseCanBecomeOne(k: string)
    ensures var input, fails := map[k := Bool(false)], (x: Input) => k in x && x[k] != Int(0);
            fails(input) && Grows(input, k, fails) && SmallestTried(input, k, fails) == map[k := Int(1)]
  {
    var input := map[k := Bool(false)];
    assert input[k := Int(1)] == map[k := Int(1)];
  }

  lemma {:induction false} Tried(input: Input, k: string, val: int, half: int)
    requires k in input
    ensures var out := input[k := Int(val)];
            && out[k := Int(0)] == input[k := Int(0)] && out[k := Int(1)] == input[k := Int(1)]
            && out[k := Int(-1)] == input[k := Int(-1)] && out[k := Int(half)] == input[k := Int(half)]
  {
    SetAgain(input, k, Int(val), Int(half));
    SetAgain(input, k, Int(val), Int(0));
    SetAgain(input, k, Int(val), Int(1));
    SetAgain(input, k, Int(val), Int(-1));
  }

  lemma {:induction false} TextTried(input: Input, k: string, s: string, t: string)
    requires k in input && s <= t
    ensures var out := input[k := Text(s)];
            && out[k := Text([])] == input[k := Text([])] && (s != [] ==> s[..1] == t[..1] && out[k := Text(s[..1])] == input[k := Text(t[..1])])
            && out[k := Text(s[..|s| / 2])] == input[k := Text(s[..|s| / 2])] && s[..|s| / 2] <= t
  {
    SetAgain(input, k, Text(s), Text([]));
    SetAgain(input, k, Text(s), Text(s[..|s| / 2]));
    if s != [] {
      SetAgain(input, k, Text(s), Text(s[..1]));
    }
  }

  method ShrinkText(input: Input, k: string, fails: Fails) returns (out: Input)
    requires k in input && input[k].Text? && fails(input)
    ensures Shrunk(input, k, fails, out) && Stuck(out, k, fails)
  {
    var v := input[k].s;
    SetAgain(input, k, input[k], input[k]);
    if fails(input[k := Text([])]) {
      return input[k := Text([])];
    }
    if |v| > 1 && fails(input[k := Text(v[..1])]) {
      TextTried(input, k, v[..1], v);
      return input[k := Text(v[..1])];
    }
    out := input;
    var s := v;
    while |s| > 2
      invariant s <= v && out == input[k := Text(s)] && fails(out) && (|v| > 1 ==> |s| > 0)
    {
      TextTried(input, k, s, v);
      var half := s[..|s| / 2];
      if !fails(out[k := Text(half)]) {
        break;
      }
      out, s := out[k := Text(half)], half;
    }
    TextTried(input, k, s, v);
  }

  method ShrinkList(input: Input, k: string, fails: Fails) returns (out: Input)
    requires k in input && input[k].List? && fails(input)
    ensures Shrunk(input, k, fails, out) && Stuck(out, k, fails)
  {
    SetAgain(input, k, input[k], input[k]);
    if fails(input[k := List([])]) {
      return input[k := List([])];
    }
    out := input;
    var items := input[k].items;
    while |items| > 1
      invariant items <= input[k].items && out == input[k := List(items)] && fails(out)
    {
      var half := items[..|items| / 2];
      SetAgain(input, k, List(items), List(half));
      SetAgain(input, k, List(items), List([]));
      if !fails(out[k := List(half)]) {
        break;
      }
      out, items := out[k := List(half)], half;
    }
    SetAgain(input, k, List(items), List([]));
  }

  // Every value no further from nothing than it was, and failing still.
  ghost predicate NoLarger(input: Input, fails: Fails, out: Input) {
    out.Keys == input.Keys && fails(out) && forall k :: k in input ==> out[k] == input[k] || Smaller(out[k], input[k])
  }

  // A number, a text or a list with nothing left to try.
  ghost predicate Settled(input: Input, out: Input, k: string, fails: Fails) {
    k in input && k in out && (input[k].Int? || input[k].Text? || input[k].List? ==> Stuck(out, k, fails))
  }

  method ShrinkValues(input: Input, keys: seq<string>, fails: Fails) returns (out: Input)
    requires fails(input) && (forall k :: k in keys ==> k in input) && Once(keys)
    ensures NoLarger(input, fails, out)
    ensures keys != [] ==> Settled(input, out, keys[|keys| - 1], fails)
  {
    out := input;
    for i := 0 to |keys|
      invariant NoLarger(input, fails, out) && forall k :: k in keys[i..] ==> out[k] == input[k]
      invariant i > 0 ==> Settled(input, out, keys[i - 1], fails)
    {
      var k := keys[i];
      assert keys[i..] == [k] + keys[i + 1..];
      assert forall x :: x in keys[i + 1..] ==> x != k && x in keys[i..];
      match input[k] {
        case Int(_) => out := ShrinkNumber(out, k, fails);
        case Bool(_) => out := ShrinkNumber(out, k, fails);
        case Text(_) => out := ShrinkText(out, k, fails);
        case List(_) => out := ShrinkList(out, k, fails);
        case Other(_) =>
      }
    }
  }

  function Left(keys: seq<string>, current: Input): (r: seq<string>)
    ensures forall k :: k in r <==> k in keys && k in current
  {
    if keys == [] then []
    else
      assert keys == [keys[0]] + keys[1..];
      (if keys[0] in current then [keys[0]] else []) + Left(keys[1..], current)
  }

  lemma {:induction false} LeftSame(keys: seq<string>, a: Input, b: Input)
    requires a.Keys == b.Keys
    ensures Left(keys, a) == Left(keys, b)
  {
    if keys != [] {
      LeftSame(keys[1..], a, b);
    }
  }

  ghost predicate Once(keys: seq<string>) { forall i, j :: 0 <= i < j < |keys| ==> keys[i] != keys[j] }

  lemma {:induction false} LeftOnce(keys: seq<string>, current: Input)
    requires Once(keys)
    ensures Once(Left(keys, current))
  {
    if keys != [] {
      var more, rest := keys[1..], Left(keys[1..], current);
      assert Once(more) && forall j :: 0 <= j < |more| ==> more[j] == keys[j + 1] != keys[0];
      LeftOnce(more, current);
      forall j | 0 <= j < |rest| ensures rest[j] != keys[0] {
        assert rest[j] in rest;
      }
    }
  }

  lemma {:induction false} NoLargerWithin(input: Input, current: Input, out: Input, fails: Fails)
    requires Within(current, input) && NoLarger(current, fails, out)
    ensures out.Keys == current.Keys && forall k :: k in out ==> k in input && (out[k] == input[k] || Smaller(out[k], input[k]))
    ensures current != map[] ==> out != map[]
  {
    if current != map[] {
      assert current.Keys != {};
    }
  }

  lemma {:induction false} SettledWithin(input: Input, current: Input, out: Input, k: string, fails: Fails)
    requires Within(current, input) && Settled(current, out, k, fails)
    ensures Settled(input, out, k, fails)
  {
  }

  // An input that does not fail is left as it is; one that does is made no
  // larger anywhere and fails still, on the keys the first pass leaves, and
  // its last value has nothing left to try.
  method Minimize(input: Input, keys: seq<string>, fails: Fails) returns (out: Input)
    requires (forall k :: k in keys <==> k in input) && Once(keys)
    ensures !fails(input) ==> out == input
    ensures fails(input) ==> fails(out) && out.Keys == DropPass(input, keys, fails).Keys && out.Keys <= input.Keys
    ensures fails(input) ==> forall k :: k in out ==> out[k] == input[k] || Smaller(out[k], input[k])
    ensures input != map[] ==> out != map[]
    ensures fails(input) && Left(keys, out) != [] ==> Settled(input, out, Left(keys, out)[|Left(keys, out)| - 1], fails)
  {
    if !fails(input) {
      return input;
    }
    DropPassFails(input, keys, fails);
    var current := DropKeys(input, keys, fails);
    LeftOnce(keys, current);
    var left := Left(keys, current);
    out := ShrinkValues(current, left, fails);
    NoLargerWithin(input, current, out, fails);
    LeftSame(keys, current, out);
    if left != [] {
      SettledWithin(input, current, out, left[|left| - 1], fails);
    }
  }
}
