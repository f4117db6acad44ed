// The hash-chained record of what was done, and the checkpoints kept of it
// (`migkit/audit.py`, `migkit/anchor.py`).
module Audit {
  import opened LastEvent

  type Bytes = seq<nat>

  const LF: nat := 10
  const CR: nat := 13

  datatype Json = Str(s: string) | Num(n: int) | Null | Other(tag: nat)

  predicate Truthy(j: Json) {
    match j
    case Str(s) => s != ""
    case Num(n) => n != 0
    case Null => false
    case Other(tag) => tag != 0
  }

  type Entry = map<string, Json>

  datatype Parsed = NotARecord | Record(entry: Entry)

  // Reading and writing a line, the canonical text and the hash.
  datatype Codec = Codec(load: Bytes -> Parsed, dump: Entry -> Bytes, canonical: Entry -> Bytes, sha: Bytes -> string)

  // A line written reads back; canonical texts and hashes collide nowhere,
  // and no hash is empty.
  ghost predicate Faithful(c: Codec) {
    && (forall e :: c.load(c.dump(e)) == Record(e) && LF !in c.dump(e))
    && c.load([]) == NotARecord
    && (forall e, f :: c.canonical(e) == c.canonical(f) ==> e == f)
    && (forall a, b :: c.sha(a) == c.sha(b) ==> a == b)
    && (forall a :: c.sha(a) != "")
  }

  function HashOf(c: Codec, body: Entry): string { c.sha(c.canonical(body)) }

  function Get(e: Entry, k: string): Json { if k in e then e[k] else Null }

  // ---- Lines

  // Where the last newline ends: 0 where there is none.
  function AfterNewline(b: Bytes): (k: nat)
    ensures k <= |b| && (k > 0 ==> b[k - 1] == LF)
    ensures forall i :: k <= i < |b| ==> b[i] != LF
  {
    if b == [] then 0
    else if b[|b| - 1] == LF then |b|
    else AfterNewline(b[..|b| - 1])
  }

  // The whole lines, and the bytes of a write that was cut.
  function Whole(raw: Bytes): (w: Bytes)
    ensures Lined(w)
  {
    raw[..AfterNewline(raw)]
  }

  function Torn(raw: Bytes): Bytes { raw[AfterNewline(raw)..] }

  predicate Lined(raw: Bytes) { raw == [] || raw[|raw| - 1] == LF }

  // The whole lines before the last, and the last.
  function Before(raw: Bytes): (b: Bytes)
    requires raw != [] && Lined(raw)
    ensures Lined(b) && |b| < |raw| && b <= raw
  {
    raw[..AfterNewline(raw[..|raw| - 1])]
  }

  function LastOf(raw: Bytes): (l: Bytes)
    requires raw != [] && Lined(raw)
    ensures LF !in l
  {
    var body := raw[..|raw| - 1];
    body[AfterNewline(body)..]
  }

  lemma {:induction false} LineApart(raw: Bytes)
    requires raw != [] && Lined(raw)
    ensures raw == Before(raw) + LastOf(raw) + [LF]
  {
    var body := raw[..|raw| - 1];
    assert body == body[..AfterNewline(body)] + body[AfterNewline(body)..];
  }

  lemma {:induction false} AfterNewlineIs(b: Bytes, k: nat)
    requires k <= |b| && (k > 0 ==> b[k - 1] == LF) && forall i :: k <= i < |b| ==> b[i] != LF
    ensures AfterNewline(b) == k
  {
  }

  // A line put after whole lines is the last line.
  lemma {:induction false} LineAdded(raw: Bytes, line: Bytes)
    requires Lined(raw) && LF !in line
    ensures var more := raw + line + [LF];
            Lined(more) && Before(more) == raw && LastOf(more) == line && Torn(more) == [] && Whole(more) == more
  {
    var more := raw + line + [LF];
    var body := more[..|more| - 1];
    assert body == raw + line;
    forall i | |raw| <= i < |body| ensures body[i] != LF {
      assert body[i] == line[i - |raw|] && body[i] in line;
    }
    AfterNewlineIs(body, |raw|);
    AfterNewlineIs(more, |more|);
    assert body[..|raw|] == raw && body[|raw|..] == line;
  }

  function Count(raw: Bytes): nat
    requires Lined(raw)
    decreases |raw|
  {
    if raw == [] then 0 else Count(Before(raw)) + 1
  }

  // ---- Verifying

  datatype Why = NotRecord | HashMissing | EntryChanged | NamesBefore | NotBound | OutOfOrder

  // The hash the next entry must follow (none while the chain has not begun)
  // and how many entries are chained; a break says how many were before it.
  datatype Chain = Chain(prev: Option<Json>, chained: nat)

  datatype Verdict = Good(chain: Chain) | Bad(n: nat, why: Why, before: nat)

  // What is wrong with entry `n`, after the whole lines `opening`.
  function Wrong(c: Codec, opening: Bytes, e: Entry, n: nat, prev: Option<Json>): Option<Why> {
    if "hash" !in e then
      if prev.Some? then Some(HashMissing) else None
    else if e["hash"] != Str(HashOf(c, e - {"hash"})) then Some(EntryChanged)
    else if prev.None? && Truthy(Get(e, "prev")) then Some(NamesBefore)
    else if prev.None? && n > 1 && (!Truthy(Get(e, "older")) || Get(e, "older") != Str(c.sha(opening))) then Some(NotBound)
    else if prev.Some? && Get(e, "prev") != prev.value then Some(OutOfOrder)
    else None
  }

  function Check(c: Codec, opening: Bytes, line: Bytes, n: nat, chain: Chain): Verdict {
    var got := c.load(line);
    if got == NotARecord then Bad(n, NotRecord, chain.chained)
    else
      var wrong := Wrong(c, opening, got.entry, n, chain.prev);
      if wrong.Some? then Bad(n, wrong.value, chain.chained)
      else if "hash" !in got.entry then Good(chain)
      else Good(Chain(Some(got.entry["hash"]), chain.chained + 1))
  }

  // The whole lines verified, from the first; the first that breaks, if one does.
  function VerifyLines(c: Codec, raw: Bytes): Verdict
    requires Lined(raw)
    decreases |raw|
  {
    if raw == [] then Good(Chain(None, 0))
    else
      match VerifyLines(c, Before(raw))
      case Bad(n, why, chained) => Bad(n, why, chained)
      case Good(chain) => Check(c, Before(raw), LastOf(raw), Count(raw), chain)
  }

  ghost predicate Verifies(c: Codec, raw: Bytes) { VerifyLines(c, Whole(raw)).Good? }

  // The hash a line carries, where it carries one.
  function HashHeld(c: Codec, line: Bytes): Option<string> {
    var got := c.load(line);
    if got.Record? && "hash" in got.entry && got.entry["hash"].Str? && got.entry["hash"].s != ""
    then Some(got.entry["hash"].s) else None
  }

  function HashLines(c: Codec, raw: Bytes): (hs: seq<Option<string>>)
    requires Lined(raw)
    ensures |hs| == Count(raw)
    decreases |raw|
  {
    if raw == [] then [] else HashLines(c, Before(raw)) + [HashHeld(c, LastOf(raw))]
  }

  function Entries(c: Codec, raw: Bytes): (es: seq<Parsed>)
    requires Lined(raw)
    ensures |es| == Count(raw)
    decreases |raw|
  {
    if raw == [] then [] else Entries(c, Before(raw)) + [c.load(LastOf(raw))]
  }

  // ---- What verifying means

  // Entry `i`, of a record whose chain begins at entry `b` after the lines
  // `opening`; entries are counted from 0. Before the chain an entry carries
  // no hash; in it, the hash of its own text. The first names no entry before
  // it and binds the lines there are; each other names the one before it.
  ghost predicate InPlace(c: Codec, es: seq<Parsed>, opening: Bytes, b: nat, i: nat) {
    && i < |es| && es[i].Record?
    && (i < b ==> "hash" !in es[i].entry)
    && (i >= b ==> "hash" in es[i].entry && es[i].entry["hash"] == Str(c.sha(c.canonical(es[i].entry - {"hash"}))))
    && (i == b ==> !Truthy(Get(es[i].entry, "prev")))
    && (i == b && b > 0 ==> Truthy(Get(es[i].entry, "older")) && Get(es[i].entry, "older") == Str(c.sha(opening)))
    && (i > b ==> es[i - 1].Record? && "hash" in es[i - 1].entry && Get(es[i].entry, "prev") == es[i - 1].entry["hash"])
  }

  ghost predicate ChainedFrom(c: Codec, raw: Bytes, b: nat)
    requires Lined(raw)
  {
    b <= Count(raw) && forall i :: 0 <= i < Count(raw) ==> InPlace(c, Entries(c, raw), First(raw, b), b, i)
  }

  // What the verifier goes on with, the chain begun at entry `b`.
  ghost predicate GoesOn(c: Codec, raw: Bytes, b: nat, chain: Chain)
    requires Lined(raw)
  {
    var es := Entries(c, raw);
    && b <= |es| && chain.chained == |es| - b
    && (b == |es| ==> chain.prev == None)
    && (b < |es| ==> es[|es| - 1].Record? && "hash" in es[|es| - 1].entry && chain.prev == Some(es[|es| - 1].entry["hash"]))
  }

  lemma {:induction false} SameInPlace(c: Codec, es: seq<Parsed>, x: Parsed, opening: Bytes, b: nat, i: nat)
    requires i < |es|
    ensures InPlace(c, es + [x], opening, b, i) <==> InPlace(c, es, opening, b, i)
  {
    assert (es + [x])[i] == es[i] && (i > 0 ==> (es + [x])[i - 1] == es[i - 1]);
  }

  // One line more once the chain has begun.
  lemma {:induction false} BegunMore(c: Codec, raw: Bytes, b: nat, chain: Chain)
    requires Lined(raw) && raw != [] && b < Count(Before(raw)) && GoesOn(c, Before(raw), b, chain)
    ensures var n, got := Count(Before(raw)), Check(c, Before(raw), LastOf(raw), Count(raw), chain);
            (got.Good? <==> InPlace(c, Entries(c, raw), First(raw, b), b, n)) && (got.Good? ==> GoesOn(c, raw, b, got.chain))
  {
    var es := Entries(c, Before(raw));
    assert Entries(c, raw) == es + [c.load(LastOf(raw))];
    assert Entries(c, raw)[|es| - 1] == es[|es| - 1];
  }

  // One line more before it has: it begins the chain, or does not.
  lemma {:induction false} UnbegunMore(c: Codec, raw: Bytes, chain: Chain)
    requires Lined(raw) && raw != [] && GoesOn(c, Before(raw), Count(Before(raw)), chain)
    ensures var n, got, es := Count(Before(raw)), Check(c, Before(raw), LastOf(raw), Count(raw), chain), Entries(c, raw);
            && (got.Good? <==> InPlace(c, es, Before(raw), n, n) || InPlace(c, es, raw, n + 1, n))
            && (InPlace(c, es, Before(raw), n, n) ==> got.Good? && GoesOn(c, raw, n, got.chain))
            && (InPlace(c, es, raw, n + 1, n) ==> got.Good? && GoesOn(c, raw, n + 1, got.chain))
  {
    assert Entries(c, raw) == Entries(c, Before(raw)) + [c.load(LastOf(raw))];
  }

  lemma {:induction false} FirstOfAll(raw: Bytes, b: nat)
    requires Lined(raw) && raw != [] && b <= Count(raw)
    ensures First(raw, b) == if b == Count(raw) then raw else First(Before(raw), b)
    ensures First(Before(raw), Count(Before(raw))) == Before(raw)
  {
  }

  lemma {:induction false} GoodIsChained(c: Codec, raw: Bytes) returns (b: nat)
    requires Lined(raw) && VerifyLines(c, raw).Good?
    ensures ChainedFrom(c, raw, b) && GoesOn(c, raw, b, VerifyLines(c, raw).chain)
    decreases |raw|
  {
    b := 0;
    if raw != [] {
      b := GoodIsChained(c, Before(raw));
      var n, was := Count(Before(raw)), b;
      var es := Entries(c, Before(raw));
      assert Entries(c, raw) == es + [c.load(LastOf(raw))];
      if b < n {
        BegunMore(c, raw, b, VerifyLines(c, Before(raw)).chain);
      } else {
        UnbegunMore(c, raw, VerifyLines(c, Before(raw)).chain);
        b := if InPlace(c, Entries(c, raw), Before(raw), n, n) then n else n + 1;
      }
      FirstOfAll(raw, b);
      forall i | 0 <= i < n ensures InPlace(c, Entries(c, raw), First(raw, b), b, i) {
        assert InPlace(c, es, First(Before(raw), was), was, i);
        SameInPlace(c, es, c.load(LastOf(raw)), First(raw, b), b, i);
      }
    }
  }

  lemma {:induction false} ChainedIsGood(c: Codec, raw: Bytes, b: nat)
    requires Lined(raw) && ChainedFrom(c, raw, b)
    ensures VerifyLines(c, raw).Good? && GoesOn(c, raw, b, VerifyLines(c, raw).chain)
    decreases |raw|
  {
    if raw != [] {
      var n, es := Count(Before(raw)), Entries(c, Before(raw));
      assert Entries(c, raw) == es + [c.load(LastOf(raw))];
      var was := if b <= n then b else n;
      FirstOfAll(raw, b);
      forall i | 0 <= i < n ensures InPlace(c, es, First(Before(raw), was), was, i) {
        assert InPlace(c, Entries(c, raw), First(raw, b), b, i);
        SameInPlace(c, es, c.load(LastOf(raw)), First(raw, b), b, i);
      }
      ChainedIsGood(c, Before(raw), was);
      assert InPlace(c, Entries(c, raw), First(raw, b), b, n);
      if was < n {
        BegunMore(c, raw, b, VerifyLines(c, Before(raw)).chain);
      } else {
        UnbegunMore(c, raw, VerifyLines(c, Before(raw)).chain);
      }
    }
  }

  // A record verifies exactly where its chain begins at some entry, or at
  // none, and every entry is in its place; all from there on are counted.
  lemma {:induction false} VerifiesExactly(c: Codec, raw: Bytes)
    requires Lined(raw)
    ensures VerifyLines(c, raw).Good? <==> exists b :: ChainedFrom(c, raw, b)
    ensures forall b :: ChainedFrom(c, raw, b) ==> VerifyLines(c, raw).Good? && VerifyLines(c, raw).chain.chained == Count(raw) - b
  {
    if VerifyLines(c, raw).Good? {
      var b := GoodIsChained(c, raw);
    }
    forall b | ChainedFrom(c, raw, b) ensures VerifyLines(c, raw).Good? && VerifyLines(c, raw).chain.chained == Count(raw) - b {
      ChainedIsGood(c, raw, b);
    }
  }

  // What a break says is wrong with an entry, the chain standing at `prev`
  // after the lines `opening`.
  ghost predicate IsWrong(c: Codec, opening: Bytes, got: Parsed, prev: Option<Json>, why: Why) {
    if why == NotRecord then got == NotARecord
    else
      got.Record? &&
      match why
      case HashMissing => prev.Some? && "hash" !in got.entry
      case EntryChanged => "hash" in got.entry && got.entry["hash"] != Str(c.sha(c.canonical(got.entry - {"hash"})))
      case NamesBefore => prev.None? && "hash" in got.entry && Truthy(Get(got.entry, "prev"))
      case NotBound =>
        prev.None? && "hash" in got.entry && opening != []
        && !(Truthy(Get(got.entry, "older")) && Get(got.entry, "older") == Str(c.sha(opening)))
      case OutOfOrder => prev.Some? && "hash" in got.entry && Get(got.entry, "prev") != prev.value
  }

  // At the entry a break names all before it verifies, just so many of it
  // chained, and that is what is wrong.
  ghost predicate BreaksAt(c: Codec, raw: Bytes, n: nat, why: Why, before: nat)
    requires Lined(raw)
  {
    1 <= n <= Count(raw) &&
    (var opening := First(raw, n - 1);
     match VerifyLines(c, opening)
     case Good(chain) => before == chain.chained && IsWrong(c, opening, Entries(c, raw)[n - 1], chain.prev, why)
     case Bad(_, _, _) => false)
  }

  lemma {:induction false} BreaksOn(c: Codec, raw: Bytes, n: nat, why: Why, before: nat)
    requires Lined(raw) && raw != [] && BreaksAt(c, Before(raw), n, why, before)
    ensures BreaksAt(c, raw, n, why, before)
  {
    FirstOfAll(raw, n - 1);
    assert Entries(c, raw) == Entries(c, Before(raw)) + [c.load(LastOf(raw))];
    assert Entries(c, raw)[n - 1] == Entries(c, Before(raw))[n - 1];
  }

  lemma {:induction false} BreaksHere(c: Codec, raw: Bytes)
    requires Lined(raw) && raw != [] && VerifyLines(c, Before(raw)).Good? && VerifyLines(c, raw).Bad?
    ensures var at := VerifyLines(c, raw); BreaksAt(c, raw, at.n, at.why, at.before)
  {
    var n := Count(raw);
    FirstOfAll(raw, n - 1);
    assert Entries(c, raw)[n - 1] == c.load(LastOf(raw));
    CheckSays(c, Before(raw), LastOf(raw), n, VerifyLines(c, Before(raw)).chain);
  }

  // A break names the first entry that is not in order, how many were chained
  // before it, and what is wrong with it.
  lemma {:induction false} BreakSays(c: Codec, raw: Bytes)
    requires Lined(raw) && VerifyLines(c, raw).Bad?
    ensures var at := VerifyLines(c, raw); BreaksAt(c, raw, at.n, at.why, at.before)
    decreases |raw|
  {
    if VerifyLines(c, Before(raw)).Bad? {
      BreakSays(c, Before(raw));
      var at := VerifyLines(c, raw);
      BreaksOn(c, raw, at.n, at.why, at.before);
    } else {
      BreaksHere(c, raw);
    }
  }

  lemma {:induction false} CheckSays(c: Codec, opening: Bytes, line: Bytes, n: nat, chain: Chain)
    requires n > 1 ==> opening != []
    ensures var got := Check(c, opening, line, n, chain);
            got.Bad? ==> got.n == n && got.before == chain.chained && IsWrong(c, opening, c.load(line), chain.prev, got.why)
  {
  }

  // ---- The same hash at the same entry pins everything before it

  // The first n whole lines.
  function First(raw: Bytes, n: nat): (p: Bytes)
    requires Lined(raw) && n <= Count(raw)
    ensures Lined(p) && Count(p) == n && p <= raw
    decreases |raw|
  {
    if Count(raw) == n then raw else First(Before(raw), n)
  }

  lemma {:induction false} FirstVerifies(c: Codec, raw: Bytes, n: nat)
    requires Lined(raw) && n <= Count(raw) && VerifyLines(c, raw).Good?
    ensures VerifyLines(c, First(raw, n)).Good?
    decreases |raw|
  {
    if Count(raw) != n {
      FirstVerifies(c, Before(raw), n);
    }
  }

  lemma {:induction false} FirstReads(c: Codec, raw: Bytes, n: nat)
    requires Lined(raw) && n <= Count(raw)
    ensures HashLines(c, First(raw, n)) == HashLines(c, raw)[..n]
    ensures Entries(c, First(raw, n)) == Entries(c, raw)[..n]
    decreases |raw|
  {
    if Count(raw) != n {
      FirstReads(c, Before(raw), n);
    }
  }

  // Whole lines that another record begins with are its first lines.
  lemma {:induction false} PrefixIsFirst(part: Bytes, raw: Bytes)
    requires Lined(part) && Lined(raw) && part <= raw
    ensures Count(part) <= Count(raw) && First(raw, Count(part)) == part
    decreases |raw|
  {
    if |part| == |raw| {
      assert part == raw;
    } else {
      var body := raw[..|raw| - 1];
      if |part| > 0 {
        assert body[|part| - 1] == LF;
      }
      assert part <= Before(raw);
      PrefixIsFirst(part, Before(raw));
    }
  }

  // Once the chain has begun, the last line carries the hash to follow; until
  // it has, no line carries one.
  lemma {:induction false} ChainIsLastHash(c: Codec, raw: Bytes)
    requires Lined(raw) && VerifyLines(c, raw).Good? && VerifyLines(c, raw).chain.prev.Some?
    ensures raw != [] && c.load(LastOf(raw)).Record? && "hash" in c.load(LastOf(raw)).entry
    ensures c.load(LastOf(raw)).entry["hash"] == VerifyLines(c, raw).chain.prev.value
    ensures VerifyLines(c, raw).chain.prev.value.Str?
  {
  }

  // Two verified entries of one hash are one entry.
  lemma {:induction false} HashPinsEntry(c: Codec, e: Entry, f: Entry)
    requires Faithful(c) && "hash" in e && "hash" in f && e["hash"] == f["hash"]
    requires e["hash"] == Str(HashOf(c, e - {"hash"})) && f["hash"] == Str(HashOf(c, f - {"hash"}))
    ensures e == f
  {
    assert e - {"hash"} == f - {"hash"};
    forall k | k in e ensures k in f && e[k] == f[k] {
      if k != "hash" { assert k in e - {"hash"}; }
    }
    forall k | k in f ensures k in e {
      if k != "hash" { assert k in f - {"hash"}; }
    }
  }

  lemma {:induction false} LastEntryIs(c: Codec, raw: Bytes)
    requires Lined(raw) && raw != [] && VerifyLines(c, raw).Good? && HashHeld(c, LastOf(raw)).Some?
    ensures var e := c.load(LastOf(raw)).entry;
            var before := VerifyLines(c, Before(raw));
            && before.Good? && e["hash"] == Str(HashOf(c, e - {"hash"}))
            && (before.chain.prev.Some? ==> Get(e, "prev") == before.chain.prev.value)
            && (before.chain.prev.None? ==> !Truthy(Get(e, "prev")) && (Count(raw) > 1 ==> Get(e, "older") == Str(c.sha(Before(raw)))))
  {
  }

  // A hash to follow is never empty.
  lemma {:induction false} PrevIsTruthy(c: Codec, raw: Bytes)
    requires Faithful(c) && Lined(raw) && VerifyLines(c, raw).Good? && VerifyLines(c, raw).chain.prev.Some?
    ensures Truthy(VerifyLines(c, raw).chain.prev.value) && HashHeld(c, LastOf(raw)) == Some(VerifyLines(c, raw).chain.prev.value.s)
  {
    ChainIsLastHash(c, raw);
  }

  // Two records that verify and end, as long as each other, in one hash agree
  // on every entry - those before the chain byte for byte.
  lemma {:induction false} SameHeadSameRecord(c: Codec, a: Bytes, b: Bytes)
    requires Faithful(c) && Lined(a) && Lined(b) && a != [] && b != [] && Count(a) == Count(b)
    requires VerifyLines(c, a).Good? && VerifyLines(c, b).Good?
    requires HashHeld(c, LastOf(a)).Some? && HashHeld(c, LastOf(a)) == HashHeld(c, LastOf(b))
    ensures Entries(c, a) == Entries(c, b)
    decreases |a|
  {
    LastEntryIs(c, a);
    LastEntryIs(c, b);
    HashPinsEntry(c, c.load(LastOf(a)).entry, c.load(LastOf(b)).entry);
    var x, y := VerifyLines(c, Before(a)).chain, VerifyLines(c, Before(b)).chain;
    if x.prev.Some? {
      PrevIsTruthy(c, Before(a));
    }
    if y.prev.Some? {
      PrevIsTruthy(c, Before(b));
    }
    assert x.prev.Some? <==> y.prev.Some?;
    if x.prev.Some? {
      ChainIsLastHash(c, Before(a));
      ChainIsLastHash(c, Before(b));
      SameHeadSameRecord(c, Before(a), Before(b));
    } else if Count(a) > 1 {
      assert Before(a) == Before(b);
    }
  }

  // The same hash at the same entry N pins entries 1 to N.
  lemma {:induction false} SameHashSamePrefix(c: Codec, a: Bytes, b: Bytes, n: nat)
    requires Faithful(c) && Verifies(c, a) && Verifies(c, b)
    requires 1 <= n <= Count(Whole(a)) && n <= Count(Whole(b))
    requires HashLines(c, Whole(a))[n - 1].Some? && HashLines(c, Whole(a))[n - 1] == HashLines(c, Whole(b))[n - 1]
    ensures Entries(c, Whole(a))[..n] == Entries(c, Whole(b))[..n]
  {
    FirstVerifies(c, Whole(a), n);
    FirstVerifies(c, Whole(b), n);
    FirstReads(c, Whole(a), n);
    FirstReads(c, Whole(b), n);
    var x, y := First(Whole(a), n), First(Whole(b), n);
    assert HashLines(c, x)[n - 1] == HashHeld(c, LastOf(x));
    assert HashLines(c, y)[n - 1] == HashHeld(c, LastOf(y));
    SameHeadSameRecord(c, x, y);
  }

  // ---- Verifying and reading the hashes, as loops over the lines

  function Lines(raw: Bytes): (ls: seq<Bytes>)
    requires Lined(raw)
    ensures |ls| == Count(raw)
    decreases |raw|
  {
    if raw == [] then [] else Lines(Before(raw)) + [LastOf(raw)]
  }

  // Line n + 1 stands where the first n end.
  lemma {:induction false} FirstGrows(raw: Bytes, n: nat)
    requires Lined(raw) && n < Count(raw)
    ensures var more := First(raw, n + 1);
            && more != [] && Before(more) == First(raw, n) && LastOf(more) == Lines(raw)[n]
            && more == raw[..|First(raw, n)| + |Lines(raw)[n]| + 1]
    decreases |raw|
  {
    LineApart(First(raw, n + 1));
    if Count(raw) > n + 1 {
      FirstGrows(Before(raw), n);
    }
  }

  lemma {:induction false} BadStaysBad(c: Codec, raw: Bytes, n: nat)
    requires Lined(raw) && n <= Count(raw) && VerifyLines(c, First(raw, n)).Bad?
    ensures VerifyLines(c, raw) == VerifyLines(c, First(raw, n))
    decreases |raw|
  {
    if Count(raw) != n {
      BadStaysBad(c, Before(raw), n);
    }
  }

  // Where the first n lines end and what they verify to.
  ghost function ReadTo(c: Codec, raw: Bytes, n: nat): (r: (nat, Verdict))
    requires Lined(raw) && n <= Count(raw)
    ensures r.0 <= |raw|
  {
    (|First(raw, n)|, VerifyLines(c, First(raw, n)))
  }

  lemma {:induction false} LineChecked(c: Codec, raw: Bytes, n: nat, at: nat, chain: Chain)
    requires Lined(raw) && n < Count(raw) && ReadTo(c, raw, n) == (at, Good(chain))
    ensures at <= |raw| && ReadTo(c, raw, n + 1).0 == at + |Lines(raw)[n]| + 1
    ensures ReadTo(c, raw, n + 1).1 == Check(c, raw[..at], Lines(raw)[n], n + 1, chain)
  {
    FirstGrows(raw, n);
    assert First(raw, n) == raw[..at];
    LastLineChecked(c, First(raw, n + 1));
  }

  lemma {:induction false} LastLineChecked(c: Codec, raw: Bytes)
    requires Lined(raw) && raw != [] && VerifyLines(c, Before(raw)).Good?
    ensures VerifyLines(c, raw) == Check(c, Before(raw), LastOf(raw), Count(raw), VerifyLines(c, Before(raw)).chain)
  {
  }

  // A line that breaks the record is what the whole record verifies to.
  lemma {:induction false} BreakIsFinal(c: Codec, raw: Bytes, n: nat)
    requires Lined(raw) && n <= Count(raw)
    ensures ReadTo(c, raw, n).1.Bad? ==> VerifyLines(c, raw) == ReadTo(c, raw, n).1
  {
    if VerifyLines(c, First(raw, n)).Bad? {
      BadStaysBad(c, raw, n);
    }
  }

  lemma {:induction false} NoneRead(c: Codec, raw: Bytes)
    requires Lined(raw)
    ensures ReadTo(c, raw, 0) == (0, Good(Chain(None, 0)))
  {
  }

  lemma {:induction false} AllRead(c: Codec, raw: Bytes)
    requires Lined(raw)
    ensures ReadTo(c, raw, Count(raw)).1 == VerifyLines(c, raw)
  {
  }

  // The record without the bytes of a write that was cut.
  method TakeWhole(record: Bytes) returns (raw: Bytes, torn: Bytes)
    ensures raw == Whole(record) && torn == Torn(record)
  {
    raw, torn := record, [];
    if raw != [] && raw[|raw| - 1] != LF {
      var keep := AfterNewline(raw);
      torn, raw := raw[keep..], raw[..keep];
    } else {
      AfterNewlineIs(raw, |raw|);
    }
  }

  // Line `n`, read at the standing of the lines before it. Once the chain has
  // begun the opening is not asked for.
  method ReadLine(c: Codec, opening: Bytes, line: Bytes, n: nat, chain: Chain) returns (got: Verdict)
    ensures forall was | chain.prev.Some? || was == opening :: got == Check(c, was, line, n, chain)
  {
    var parsed := c.load(line);
    if parsed == NotARecord {
      return Bad(n, NotRecord, chain.chained);
    }
    var e := parsed.entry;
    if "hash" !in e {
      return if chain.prev.Some? then Bad(n, HashMissing, chain.chained) else Good(chain);
    }
    if Str(HashOf(c, e - {"hash"})) != e["hash"] {
      return Bad(n, EntryChanged, chain.chained);
    }
    if chain.prev.None? {
      if Truthy(Get(e, "prev")) {
        return Bad(n, NamesBefore, chain.chained);
      }
      if n > 1 {
        var bound := Get(e, "older");
        if !Truthy(bound) || bound != Str(c.sha(opening)) {
          return Bad(n, NotBound, chain.chained);
        }
      }
    } else if Get(e, "prev") != chain.prev.value {
      return Bad(n, OutOfOrder, chain.chained);
    }
    return Good(Chain(Some(e["hash"]), chain.chained + 1));
  }

  // Line n + 1 of the record, which starts at `at`: until the chain has begun
  // no line carries a hash, so the opening is all the lines so far.
  method ReadNext(c: Codec, raw: Bytes, line: Bytes, n: nat, before: nat, at: nat, chain: Chain) returns (end: nat, got: Verdict)
    requires Lined(raw) && n < Count(raw) && line == Lines(raw)[n] && ReadTo(c, raw, n) == (at, Good(chain))
    requires before <= |raw| && (chain.prev.None? ==> before == at)
    ensures ReadTo(c, raw, n + 1).0 == end && ReadTo(c, raw, n + 1).1 == got
  {
    LineChecked(c, raw, n, at, chain);
    got := ReadLine(c, raw[..before], line, n + 1, chain);
    assert got == Check(c, raw[..at], line, n + 1, chain);
    end := at + |line| + 1;
  }

  method ReadLines(c: Codec, raw: Bytes, lines: seq<Bytes>) returns (got: Verdict)
    requires Lined(raw) && lines == Lines(raw)
    ensures got == VerifyLines(c, raw)
  {
    var before: nat, at: nat := 0, 0;
    got := Good(Chain(None, 0));
    NoneRead(c, raw);
    for n := 0 to |lines|
      invariant got.Good? && ReadTo(c, raw, n) == (at, got) && before <= |raw| && (got.chain.prev.None? ==> before == at)
    {
      at, got := ReadNext(c, raw, lines[n], n, before, at, got.chain);
      if got.Bad? {
        BreakIsFinal(c, raw, n + 1);
        return;
      }
      if got.chain.prev.None? {
        before := at;
      }
    }
    AllRead(c, raw);
  }

  method Verify(c: Codec, record: Bytes) returns (entries: nat, got: Verdict, torn: nat)
    ensures entries == Count(Whole(record)) && torn == |Torn(record)|
    ensures got == VerifyLines(c, Whole(record))
  {
    var raw, cut := TakeWhole(record);
    var lines := Lines(raw);
    got := ReadLines(c, raw, lines);
    entries, torn := |lines|, |cut|;
  }

  method Hashes(c: Codec, record: Bytes) returns (hs: seq<Option<string>>)
    ensures hs == HashLines(c, Whole(record))
  {
    var raw, _ := TakeWhole(record);
    var lines := Lines(raw);
    hs := [];
    for n := 0 to |lines|
      invariant hs == HashLines(c, First(raw, n))
    {
      FirstGrows(raw, n);
      hs := hs + [HashHeld(c, lines[n])];
    }
    assert First(raw, |lines|) == raw;
  }
}
