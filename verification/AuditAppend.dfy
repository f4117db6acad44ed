// Appending to the record: its torn tail is taken off first, and the chain
// goes on from the last whole line, however long (`migkit/audit.py`).
module AuditAppend {
  import opened LastEvent
  import opened Audit

  // ---- Reading back the last line

  const STEP := 65536

  function Stripped(b: Bytes): (s: Bytes)
    ensures s <= b && (s != [] ==> s[|s| - 1] != LF)
    ensures forall i :: |s| <= i < |b| ==> b[i] == LF
  {
    if b != [] && b[|b| - 1] == LF then Stripped(b[..|b| - 1]) else b
  }

  // What stands after the last newline, the newlines at the end taken off.
  function LastLineOf(raw: Bytes): Bytes {
    var body := Stripped(raw);
    body[AfterNewline(body)..]
  }

  lemma {:induction false} StrippedIs(b: Bytes, n: nat)
    requires n <= |b| && (n > 0 ==> b[n - 1] != LF) && forall i :: n <= i < |b| ==> b[i] == LF
    ensures Stripped(b) == b[..n]
  {
    if n < |b| {
      StrippedIs(b[..|b| - 1], n);
      assert b[..|b| - 1][..n] == b[..n];
    } else {
      assert b[..n] == b;
    }
  }

  // A tail that holds a newline before its last line holds the whole last line.
  lemma {:induction false} TailHoldsLast(raw: Bytes, at: nat)
    requires at <= |raw| && AfterNewline(Stripped(raw[at..])) > 0
    ensures LastLineOf(raw) == LastLineOf(raw[at..])
  {
    var tail := raw[at..];
    var body, k := Stripped(tail), AfterNewline(Stripped(tail));
    var n := at + |body|;
    assert raw[n - 1] == tail[|body| - 1];
    forall i | n <= i < |raw| ensures raw[i] == LF { assert raw[i] == tail[i - at]; }
    StrippedIs(raw, n);
    assert forall i :: 0 <= i < |body| ==> raw[..n][at + i] == body[i];
    forall i | at + k <= i < n ensures raw[..n][i] != LF { assert raw[..n][i] == body[i - at]; }
    AfterNewlineIs(raw[..n], at + k);
    assert raw[..n][at + k..] == body[k..];
  }

  // The last line read back from the end, a block at a time, however long.
  method LastLine(raw: Bytes) returns (line: Bytes)
    ensures line == LastLineOf(raw)
  {
    var at, tail: Bytes := |raw|, [];
    while at > 0
      invariant 0 <= at <= |raw| && tail == raw[at..] && (at == 0 ==> raw == [])
    {
      var start := if at > STEP then at - STEP else 0;
      assert raw[start..at] + raw[at..] == raw[start..];
      tail := raw[start..at] + tail;
      at := start;
      if AfterNewline(Stripped(tail)) > 0 || at == 0 {
        LastBlock(raw, at);
        line := LastLineOf(tail);
        return;
      }
    }
    line := [];
  }

  lemma {:induction false} LastBlock(raw: Bytes, at: nat)
    requires at <= |raw| && (AfterNewline(Stripped(raw[at..])) > 0 || at == 0)
    ensures LastLineOf(raw[at..]) == LastLineOf(raw)
  {
    if at == 0 {
      assert raw[0..] == raw;
    } else {
      TailHoldsLast(raw, at);
    }
  }

  // In a record that verifies no line is empty, so the last line is the last
  // whole one.
  lemma {:induction false} LastLineIsLastOf(c: Codec, raw: Bytes)
    requires Faithful(c) && Lined(raw) && raw != [] && VerifyLines(c, raw).Good?
    ensures LastLineOf(raw) == LastOf(raw)
  {
    LineApart(raw);
    var body := raw[..|raw| - 1];
    assert LastOf(raw) != [];
    assert body[|body| - 1] == LastOf(raw)[|LastOf(raw)| - 1];
    StrippedIs(raw, |body|);
  }

  // ---- Where the chain stands

  predicate Breaks(b: nat) { b == LF || b == CR }

  function AfterBreak(b: Bytes): (k: nat)
    ensures k <= |b| && forall i :: k <= i < |b| ==> !Breaks(b[i])
    ensures k > 0 ==> Breaks(b[k - 1])
  {
    if b == [] then 0
    else if Breaks(b[|b| - 1]) then |b|
    else AfterBreak(b[..|b| - 1])
  }

  // The bytes without the line break at their end, be it LF, CR or both.
  function Unbroken(raw: Bytes): (b: Bytes)
    ensures b <= raw && (raw != [] ==> AfterBreak(b) < |raw|)
  {
    if raw == [] then raw
    else if raw[|raw| - 1] == LF then
      if |raw| > 1 && raw[|raw| - 2] == CR then raw[..|raw| - 2] else raw[..|raw| - 1]
    else if raw[|raw| - 1] == CR then raw[..|raw| - 1]
    else raw
  }

  // Lines as split at every line break, not at newlines alone.
  function Pieces(raw: Bytes): seq<Bytes>
    decreases |raw|
  {
    if raw == [] then []
    else
      var body := Unbroken(raw);
      var k := AfterBreak(body);
      Pieces(raw[..k]) + [body[k..]]
  }

  function TruthyHash(c: Codec, line: Bytes): Option<Json> {
    var got := c.load(line);
    if got.Record? && Truthy(Get(got.entry, "hash")) then Some(got.entry["hash"]) else None
  }

  function LastHash(c: Codec, pieces: seq<Bytes>): Option<Json> {
    if pieces == [] then None
    else if TruthyHash(c, pieces[|pieces| - 1]).Some? then TruthyHash(c, pieces[|pieces| - 1])
    else LastHash(c, pieces[..|pieces| - 1])
  }

  // The hash to follow, and the bytes the first hashed entry is to bind.
  datatype Standing = Standing(prev: Json, older: Option<Bytes>)

  function ChainState(c: Codec, keep: Bytes): Standing {
    if keep == [] then Standing(Str(""), Some([]))
    else
      var last := TruthyHash(c, LastLineOf(keep));
      if last.Some? then Standing(last.value, None)
      else
        var stray := LastHash(c, Pieces(keep));
        if stray.Some? then Standing(stray.value, None) else Standing(Str(""), Some(keep))
  }

  // ---- Writing entries

  function Body(c: Codec, stamp: Entry, one: Entry, at: Standing): Entry {
    var body := stamp + one + map["prev" := at.prev];
    if !Truthy(at.prev) && at.older.Some? && at.older.value != [] then body["older" := Str(c.sha(at.older.value))] else body
  }

  function Hashed(c: Codec, body: Entry): Entry { body["hash" := Str(HashOf(c, body))] }

  function TornEntry(c: Codec, torn: Bytes): Entry {
    map["op" := Str("torn"), "bytes" := Num(|torn|), "sha256" := Str(c.sha(torn))]
  }

  datatype Appended = Appended(raw: Bytes, head: string)

  function WriteLine(c: Codec, keep: Bytes, stamp: Entry, one: Entry, at: Standing): Appended {
    var body := Body(c, stamp, one, at);
    Appended(keep + c.dump(Hashed(c, body)) + [LF], HashOf(c, body))
  }

  // What an append leaves: the torn bytes taken off and said, then the entry.
  function AppendTo(c: Codec, raw: Bytes, stamp: Entry, entry: Entry): Appended {
    var keep, torn := Whole(raw), Torn(raw);
    var at := ChainState(c, keep);
    if torn == [] then WriteLine(c, keep, stamp, entry, at)
    else
      var said := WriteLine(c, keep, stamp, TornEntry(c, torn), at);
      WriteLine(c, said.raw, stamp, entry, Standing(Str(said.head), None))
  }

  // The standing the verifier would find itself.
  ghost predicate Stands(c: Codec, keep: Bytes, at: Standing)
    requires Lined(keep) && VerifyLines(c, keep).Good?
  {
    var chain := VerifyLines(c, keep).chain;
    if chain.prev.Some? then at.prev == chain.prev.value else at == Standing(Str(""), Some(keep))
  }

  lemma {:induction false} BodySays(c: Codec, stamp: Entry, one: Entry, at: Standing)
    requires "hash" !in stamp
    ensures var body := Body(c, stamp, one, at);
            && Get(body, "prev") == at.prev
            && (!Truthy(at.prev) && at.older.Some? && at.older.value != [] ==> Get(body, "older") == Str(c.sha(at.older.value)))
            && ("hash" in body <==> "hash" in one)
  {
  }

  lemma {:induction false} HashedSays(c: Codec, body: Entry)
    requires Faithful(c)
    ensures var e := Hashed(c, body);
            && "hash" in e && Get(e, "prev") == Get(body, "prev") && Get(e, "older") == Get(body, "older")
            && (e["hash"] == Str(HashOf(c, e - {"hash"})) <==> "hash" !in body)
  {
    var e := Hashed(c, body);
    if "hash" !in body {
      assert e - {"hash"} == body;
    } else {
      assert "hash" !in e - {"hash"};
    }
  }

  lemma {:induction false} EntryChecks(c: Codec, keep: Bytes, stamp: Entry, one: Entry, at: Standing)
    requires Faithful(c) && Lined(keep) && VerifyLines(c, keep).Good? && Stands(c, keep, at) && "hash" !in stamp
    ensures var e := Hashed(c, Body(c, stamp, one, at));
            var got := Check(c, keep, c.dump(e), Count(keep) + 1, VerifyLines(c, keep).chain);
            && (got.Good? <==> "hash" !in one)
            && ("hash" !in one ==> got.chain == Chain(Some(e["hash"]), VerifyLines(c, keep).chain.chained + 1))
  {
    BodySays(c, stamp, one, at);
    HashedSays(c, Body(c, stamp, one, at));
    assert c.load(c.dump(Hashed(c, Body(c, stamp, one, at)))) == Record(Hashed(c, Body(c, stamp, one, at)));
  }

  // A line written at the verifier's own standing verifies exactly where what
  // is written carries no hash of its own.
  lemma {:induction false} LineFollows(c: Codec, keep: Bytes, stamp: Entry, one: Entry, at: Standing)
    requires Faithful(c) && Lined(keep) && VerifyLines(c, keep).Good? && Stands(c, keep, at) && "hash" !in stamp
    ensures Written(c, keep, WriteLine(c, keep, stamp, one, at))
    ensures var after := WriteLine(c, keep, stamp, one, at);
            && (VerifyLines(c, after.raw).Good? <==> "hash" !in one)
            && ("hash" !in one ==> VerifyLines(c, after.raw).chain == Chain(Some(Str(after.head)), VerifyLines(c, keep).chain.chained + 1))
  {
    LineWritten(c, keep, stamp, one, at);
    EntryChecks(c, keep, stamp, one, at);
    var e := Hashed(c, Body(c, stamp, one, at));
    var after := WriteLine(c, keep, stamp, one, at);
    assert VerifyLines(c, after.raw) == Check(c, keep, c.dump(e), Count(keep) + 1, VerifyLines(c, keep).chain);
  }

  // One line more than `keep`, nothing torn, ending in the head.
  ghost predicate Written(c: Codec, keep: Bytes, after: Appended)
    requires Lined(keep)
  {
    && Lined(after.raw) && after.raw != [] && Before(after.raw) == keep && Count(after.raw) == Count(keep) + 1
    && Torn(after.raw) == [] && Whole(after.raw) == after.raw && HashHeld(c, LastOf(after.raw)) == Some(after.head)
  }

  lemma {:induction false} LineWritten(c: Codec, keep: Bytes, stamp: Entry, one: Entry, at: Standing)
    requires Faithful(c) && Lined(keep)
    ensures var after := WriteLine(c, keep, stamp, one, at);
            Written(c, keep, after) && LastOf(after.raw) == c.dump(Hashed(c, Body(c, stamp, one, at)))
  {
    var e := Hashed(c, Body(c, stamp, one, at));
    LineAdded(keep, c.dump(e));
    assert c.load(c.dump(e)) == Record(e);
  }

  // A line written at a standing the chain does not have breaks the record.
  lemma {:induction false} LineStrays(c: Codec, keep: Bytes, stamp: Entry, one: Entry, at: Standing)
    requires Faithful(c) && Lined(keep) && VerifyLines(c, keep).Good? && "hash" !in stamp
    requires VerifyLines(c, keep).chain.prev.None? && Truthy(at.prev)
    ensures var after := WriteLine(c, keep, stamp, one, at);
            Written(c, keep, after) && VerifyLines(c, after.raw).Bad?
  {
    LineWritten(c, keep, stamp, one, at);
    BodySays(c, stamp, one, at);
    HashedSays(c, Body(c, stamp, one, at));
    assert c.load(c.dump(Hashed(c, Body(c, stamp, one, at)))) == Record(Hashed(c, Body(c, stamp, one, at)));
  }

  // Before the chain has begun, a piece of the record read by itself - split
  // off at a carriage return - that carries a hash.
  ghost predicate Strays(c: Codec, keep: Bytes)
    requires Lined(keep) && VerifyLines(c, keep).Good?
  {
    VerifyLines(c, keep).chain.prev.None? && LastHash(c, Pieces(keep)).Some?
  }

  lemma {:induction false} LastHashIsTruthy(c: Codec, pieces: seq<Bytes>)
    requires LastHash(c, pieces).Some?
    ensures Truthy(LastHash(c, pieces).value)
  {
    if TruthyHash(c, pieces[|pieces| - 1]).None? {
      LastHashIsTruthy(c, pieces[..|pieces| - 1]);
    }
  }

  lemma {:induction false} BegunStands(c: Codec, keep: Bytes)
    requires Faithful(c) && Lined(keep) && VerifyLines(c, keep).Good? && VerifyLines(c, keep).chain.prev.Some?
    ensures ChainState(c, keep) == Standing(VerifyLines(c, keep).chain.prev.value, None)
  {
    ChainIsLastHash(c, keep);
    PrevIsTruthy(c, keep);
    LastLineIsLastOf(c, keep);
  }

  lemma {:induction false} UnbegunLast(c: Codec, keep: Bytes)
    requires Faithful(c) && Lined(keep) && keep != [] && VerifyLines(c, keep).Good? && VerifyLines(c, keep).chain.prev.None?
    ensures TruthyHash(c, LastLineOf(keep)).None?
  {
    LastLineIsLastOf(c, keep);
  }

  lemma {:induction false} ChainStateStands(c: Codec, keep: Bytes)
    requires Faithful(c) && Lined(keep) && VerifyLines(c, keep).Good?
    ensures !Strays(c, keep) ==> Stands(c, keep, ChainState(c, keep))
    ensures Strays(c, keep) ==> Truthy(ChainState(c, keep).prev)
  {
    if VerifyLines(c, keep).chain.prev.Some? {
      BegunStands(c, keep);
    } else if keep != [] {
      UnbegunLast(c, keep);
      if LastHash(c, Pieces(keep)).Some? {
        LastHashIsTruthy(c, Pieces(keep));
      }
    }
  }

  // A line after a record that does not verify does not mend it.
  lemma {:induction false} BadStays(c: Codec, keep: Bytes, stamp: Entry, one: Entry, at: Standing)
    requires Faithful(c) && Lined(keep) && VerifyLines(c, keep).Bad?
    ensures var after := WriteLine(c, keep, stamp, one, at);
            Written(c, keep, after) && VerifyLines(c, after.raw).Bad?
  {
    LineWritten(c, keep, stamp, one, at);
  }

  // The last line of an append, after what comes before it.
  lemma {:induction false} LastLineWritten(c: Codec, keep: Bytes, stamp: Entry, entry: Entry, at: Standing, stray: bool)
    requires Faithful(c) && Lined(keep) && VerifyLines(c, keep).Good? && "hash" !in stamp
    requires if stray then VerifyLines(c, keep).chain.prev.None? && Truthy(at.prev) else Stands(c, keep, at)
    ensures var after := WriteLine(c, keep, stamp, entry, at);
            Written(c, keep, after) && (VerifyLines(c, after.raw).Good? <==> "hash" !in entry && !stray)
  {
    if stray { LineStrays(c, keep, stamp, entry, at); } else { LineFollows(c, keep, stamp, entry, at); }
  }

  // Appending to any file whose whole lines verify - torn or not - gives one
  // that verifies, exactly where the entry carries no hash of its own and no
  // stray hash stands before the chain.
  lemma {:induction false} AppendVerifiesExactly(c: Codec, raw: Bytes, stamp: Entry, entry: Entry)
    requires Faithful(c) && Verifies(c, raw) && "hash" !in stamp
    ensures Verifies(c, AppendTo(c, raw, stamp, entry).raw) <==> "hash" !in entry && !Strays(c, Whole(raw))
  {
    var keep, torn := Whole(raw), Torn(raw);
    var at := ChainState(c, keep);
    var stray := Strays(c, keep);
    ChainStateStands(c, keep);
    if torn == [] {
      LastLineWritten(c, keep, stamp, entry, at, stray);
    } else {
      TornThenEntry(c, keep, torn, stamp, entry, at, stray);
    }
  }

  // What was torn off said, then the entry.
  lemma {:induction false} TornThenEntry(c: Codec, keep: Bytes, torn: Bytes, stamp: Entry, entry: Entry, at: Standing, stray: bool)
    requires Faithful(c) && Lined(keep) && VerifyLines(c, keep).Good? && "hash" !in stamp
    requires if stray then VerifyLines(c, keep).chain.prev.None? && Truthy(at.prev) else Stands(c, keep, at)
    ensures var said := WriteLine(c, keep, stamp, TornEntry(c, torn), at);
            var after := WriteLine(c, said.raw, stamp, entry, Standing(Str(said.head), None));
            Lined(said.raw) && Written(c, said.raw, after) && (VerifyLines(c, after.raw).Good? <==> "hash" !in entry && !stray)
  {
    var said := WriteLine(c, keep, stamp, TornEntry(c, torn), at);
    var next := Standing(Str(said.head), None);
    LastLineWritten(c, keep, stamp, TornEntry(c, torn), at, stray);
    if stray {
      BadStays(c, said.raw, stamp, entry, next);
    } else {
      LineFollows(c, keep, stamp, TornEntry(c, torn), at);
      LastLineWritten(c, said.raw, stamp, entry, next, false);
    }
  }

  // `more` entries after whole lines that verify, ending in the head.
  ghost predicate Adds(c: Codec, keep: Bytes, after: Appended, more: nat)
    requires Lined(keep) && VerifyLines(c, keep).Good?
  {
    && Lined(after.raw) && after.raw != [] && keep <= after.raw && Torn(after.raw) == []
    && Count(after.raw) == Count(keep) + more && HashHeld(c, LastOf(after.raw)) == Some(after.head)
    && VerifyLines(c, after.raw) == Good(Chain(Some(Str(after.head)), VerifyLines(c, keep).chain.chained + more))
  }

  lemma {:induction false} LineAdds(c: Codec, keep: Bytes, stamp: Entry, one: Entry, at: Standing)
    requires Faithful(c) && Lined(keep) && VerifyLines(c, keep).Good? && Stands(c, keep, at)
    requires "hash" !in stamp && "hash" !in one
    ensures Adds(c, keep, WriteLine(c, keep, stamp, one, at), 1)
  {
    LineFollows(c, keep, stamp, one, at);
  }

  lemma {:induction false} AddsBoth(c: Codec, keep: Bytes, mid: Appended, after: Appended)
    requires Lined(keep) && VerifyLines(c, keep).Good?
    requires Adds(c, keep, mid, 1) && Adds(c, mid.raw, after, 1)
    ensures Adds(c, keep, after, 2)
  {
  }

  // Such an append keeps the whole lines as its prefix, adds one entry - two
  // where bytes were torn off - leaves nothing torn, and returns the head.
  lemma {:induction false} AppendAdds(c: Codec, raw: Bytes, stamp: Entry, entry: Entry)
    requires Faithful(c) && Verifies(c, raw) && "hash" !in stamp && "hash" !in entry && !Strays(c, Whole(raw))
    ensures Adds(c, Whole(raw), AppendTo(c, raw, stamp, entry), if Torn(raw) == [] then 1 else 2)
  {
    var keep, torn := Whole(raw), Torn(raw);
    var at := ChainState(c, keep);
    ChainStateStands(c, keep);
    if torn == [] {
      LineAdds(c, keep, stamp, entry, at);
    } else {
      var said := WriteLine(c, keep, stamp, TornEntry(c, torn), at);
      LineAdds(c, keep, stamp, TornEntry(c, torn), at);
      var next := Standing(Str(said.head), None);
      LineAdds(c, said.raw, stamp, entry, next);
      AddsBoth(c, keep, said, WriteLine(c, said.raw, stamp, entry, next));
    }
  }

  // ---- What an append writes

  ghost predicate Own(k: string) { k == "prev" || k == "older" || k == "hash" }

  // The line holds the entry's own names and values, the stamp's where the
  // entry has none of that name, and the chain's three - nothing more.
  ghost predicate Holds(e: Entry, stamp: Entry, one: Entry) {
    && (forall k :: k in one && !Own(k) ==> k in e && e[k] == one[k])
    && (forall k :: k in stamp && k !in one && !Own(k) ==> k in e && e[k] == stamp[k])
    && (forall k :: k in e ==> k in one || k in stamp || Own(k))
    && "prev" in e && "hash" in e
  }

  // After `keep` comes one line, that of `one` after the entry hashed `prev`,
  // and its hash is the head.
  ghost predicate Wrote(c: Codec, keep: Bytes, after: Appended, stamp: Entry, one: Entry, prev: Json) {
    && Lined(after.raw) && after.raw != [] && Before(after.raw) == keep
    && (var got := c.load(LastOf(after.raw));
        got.Record? && Holds(got.entry, stamp, one) && got.entry["prev"] == prev && got.entry["hash"] == Str(after.head))
  }

  lemma {:induction false} LineHolds(c: Codec, keep: Bytes, stamp: Entry, one: Entry, at: Standing)
    requires Faithful(c) && Lined(keep)
    ensures Wrote(c, keep, WriteLine(c, keep, stamp, one, at), stamp, one, at.prev)
  {
    LineWritten(c, keep, stamp, one, at);
    var e := Hashed(c, Body(c, stamp, one, at));
    assert c.load(c.dump(e)) == Record(e);
  }

  ghost predicate SaysTorn(one: Entry, c: Codec, torn: Bytes) {
    one == map["op" := Str("torn"), "bytes" := Num(|torn|), "sha256" := Str(c.sha(torn))]
  }

  // An append writes the entry, where the chain stands; and where bytes were
  // torn off, first how many and their hash, and then the entry after that.
  lemma {:induction false} AppendWrites(c: Codec, raw: Bytes, stamp: Entry, entry: Entry)
    requires Faithful(c)
    ensures var after, stood := AppendTo(c, raw, stamp, entry), ChainState(c, Whole(raw)).prev;
            if Torn(raw) == [] then Wrote(c, Whole(raw), after, stamp, entry, stood)
            else exists said: Appended, torn: Entry ::
                   && SaysTorn(torn, c, Torn(raw)) && Wrote(c, Whole(raw), said, stamp, torn, stood)
                   && Wrote(c, said.raw, after, stamp, entry, Str(said.head))
  {
    var keep, torn := Whole(raw), Torn(raw);
    var at := ChainState(c, keep);
    if torn == [] {
      LineHolds(c, keep, stamp, entry, at);
    } else {
      var one := TornEntry(c, torn);
      var said := WriteLine(c, keep, stamp, one, at);
      LineHolds(c, keep, stamp, one, at);
      LineHolds(c, said.raw, stamp, entry, Standing(Str(said.head), None));
      assert SaysTorn(one, c, torn);
    }
  }

  // ---- A record with a stray hash

  lemma {:induction false} AfterBreakIs(b: Bytes, k: nat)
    requires k <= |b| && (k > 0 ==> Breaks(b[k - 1])) && forall i :: k <= i < |b| ==> !Breaks(b[i])
    ensures AfterBreak(b) == k
  {
  }

  // What follows a carriage return is a piece, whatever break ends it.
  lemma {:induction false} PieceAfterReturn(a: Bytes, b: Bytes, end: Bytes)
    requires b != [] && LF !in b && CR !in b && (end == [LF] || end == [CR] || end == [CR, LF])
    ensures Pieces(a + [CR] + b + end) == Pieces(a + [CR]) + [b]
  {
    var head, raw := a + [CR], a + [CR] + b + end;
    var body := head + b;
    assert Unbroken(raw) == body by {
      assert b[|b| - 1] in b && body[|body| - 1] == b[|b| - 1];
      assert raw[..|body|] == body;
    }
    forall i | |head| <= i < |body| ensures !Breaks(body[i]) {
      assert body[i] == b[i - |head|] && body[i] in b;
    }
    AfterBreakIs(body, |head|);
    assert raw[..|head|] == head && body[|head|..] == b;
  }

  ghost predicate OneLine(a: Bytes, b: Bytes, d: Bytes) {
    LF !in a && LF !in b && LF !in d && CR !in b && CR !in d && b != []
  }

  lemma {:induction false} PiecesOfLine(a: Bytes, b: Bytes, d: Bytes)
    requires OneLine(a, b, d)
    ensures Pieces(a + [CR] + b + [CR] + d + [LF]) == Pieces(a + [CR]) + [b] + if d == [] then [] else [d]
  {
    if d == [] {
      PieceAfterReturn(a, b, [CR, LF]);
      assert a + [CR] + b + [CR] + d + [LF] == a + [CR] + b + [CR, LF];
    } else {
      PieceAfterReturn(a, b, [CR]);
      PieceAfterReturn(a + [CR] + b, d, [LF]);
    }
  }

  lemma {:induction false} HashAmong(c: Codec, pieces: seq<Bytes>, b: Bytes, rest: seq<Bytes>)
    requires TruthyHash(c, b).Some? && |rest| <= 1
    ensures LastHash(c, pieces + [b] + rest).Some?
  {
    var all := pieces + [b] + rest;
    assert LastHash(c, pieces + [b]).Some?;
    if rest == [] {
      assert all == pieces + [b];
    } else {
      assert all[..|all| - 1] == pieces + [b];
    }
  }

  lemma {:induction false} OneLineVerifies(c: Codec, line: Bytes)
    requires LF !in line && c.load(line).Record? && "hash" !in c.load(line).entry
    ensures var keep := line + [LF]; Lined(keep) && Whole(keep) == keep && VerifyLines(c, keep) == Good(Chain(None, 0))
  {
    LineAdded([], line);
    assert [] + line + [LF] == line + [LF];
    UnhashedAlone(c, line + [LF]);
  }

  lemma {:induction false} UnhashedAlone(c: Codec, keep: Bytes)
    requires Lined(keep) && keep != [] && Before(keep) == []
    requires c.load(LastOf(keep)).Record? && "hash" !in c.load(LastOf(keep)).entry
    ensures VerifyLines(c, keep) == Good(Chain(None, 0))
  {
    assert VerifyLines(c, Before(keep)) == Good(Chain(None, 0));
  }

  // An entry of no hash with an object between two carriage returns that has
  // one: the record verifies, and no append to it does.
  lemma {:induction false} StrayHashBreaksAppends(c: Codec, a: Bytes, b: Bytes, d: Bytes, stamp: Entry, entry: Entry)
    requires Faithful(c) && OneLine(a, b, d) && "hash" !in stamp
    requires var line := a + [CR] + b + [CR] + d;
             c.load(line).Record? && "hash" !in c.load(line).entry && TruthyHash(c, b).Some?
    ensures var keep := a + [CR] + b + [CR] + d + [LF];
            && Lined(keep) && Verifies(c, keep) && VerifyLines(c, keep).Good? && Strays(c, keep)
            && !Verifies(c, AppendTo(c, keep, stamp, entry).raw)
  {
    var keep := a + [CR] + b + [CR] + d + [LF];
    OneLineVerifies(c, a + [CR] + b + [CR] + d);
    PiecesOfLine(a, b, d);
    HashAmong(c, Pieces(a + [CR]), b, if d == [] then [] else [d]);
    AppendVerifiesExactly(c, keep, stamp, entry);
  }

  // ---- Records written by appends alone

  // A record written with no carriage return strays nowhere.
  lemma {:induction false} NoReturnNoStray(c: Codec, keep: Bytes)
    requires Lined(keep) && VerifyLines(c, keep).Good? && VerifyLines(c, keep).chain.prev.None? && CR !in keep
    ensures LastHash(c, Pieces(keep)).None?
    decreases |keep|
  {
    if keep != [] {
      PiecesAreLines(keep);
      UnhashedLast(c, keep);
      NoReturnNoStray(c, Before(keep));
    }
  }

  lemma {:induction false} UnhashedLast(c: Codec, keep: Bytes)
    requires Lined(keep) && keep != [] && VerifyLines(c, keep).Good? && VerifyLines(c, keep).chain.prev.None?
    ensures VerifyLines(c, Before(keep)).Good? && VerifyLines(c, Before(keep)).chain.prev.None?
    ensures TruthyHash(c, LastOf(keep)).None?
  {
  }

  lemma {:induction false} PiecesAreLines(keep: Bytes)
    requires Lined(keep) && keep != [] && CR !in keep
    ensures CR !in Before(keep) && Pieces(keep) == Pieces(Before(keep)) + [LastOf(keep)]
  {
    var body := keep[..|keep| - 1];
    assert |keep| > 1 ==> keep[|keep| - 2] in keep;
    assert Unbroken(keep) == body;
    BreaksAreNewlines(body);
    assert keep[..AfterBreak(body)] == Before(keep);
  }

  lemma {:induction false} BreaksAreNewlines(b: Bytes)
    requires CR !in b
    ensures AfterBreak(b) == AfterNewline(b)
  {
    if b != [] {
      assert b[|b| - 1] in b;
      BreaksAreNewlines(b[..|b| - 1]);
    }
  }

  // One writing of the record: whole, or stopped once `cut` bytes of it stand.
  datatype Writing = Writing(stamp: Entry, entry: Entry, cut: Option<nat>)

  // What stands afterwards: the torn bytes are off before a byte is written.
  function After(c: Codec, raw: Bytes, w: Writing): Bytes {
    var full := AppendTo(c, raw, w.stamp, w.entry).raw;
    if w.cut.Some? && |Whole(raw)| <= w.cut.value <= |full| then full[..w.cut.value] else full
  }

  function WriteOn(c: Codec, raw: Bytes, ws: seq<Writing>): Bytes {
    if ws == [] then raw else After(c, WriteOn(c, raw, ws[..|ws| - 1]), ws[|ws| - 1])
  }

  // Every whole line verifies and is chained.
  ghost predicate AllChained(c: Codec, raw: Bytes)
    requires Lined(raw)
  {
    VerifyLines(c, raw).Good? && VerifyLines(c, raw).chain.chained == Count(raw)
  }

  lemma {:induction false} ChainedAtMost(c: Codec, raw: Bytes)
    requires Lined(raw) && VerifyLines(c, raw).Good?
    ensures VerifyLines(c, raw).chain.chained <= Count(raw)
    ensures VerifyLines(c, raw).chain.prev.None? ==> VerifyLines(c, raw).chain.chained == 0
    decreases |raw|
  {
    if raw != [] {
      ChainedAtMost(c, Before(raw));
    }
  }

  lemma {:induction false} FirstChained(c: Codec, raw: Bytes, m: nat)
    requires Lined(raw) && m <= Count(raw) && AllChained(c, raw)
    ensures AllChained(c, First(raw, m))
    decreases |raw|
  {
    if Count(raw) != m {
      ChainedAtMost(c, Before(raw));
      FirstChained(c, Before(raw), m);
    }
  }

  ghost predicate OwnHashes(w: Writing) { "hash" !in w.stamp && "hash" !in w.entry }

  lemma {:induction false} CutKeeps(c: Codec, full: Bytes, n: nat)
    requires Lined(full) && n <= |full| && AllChained(c, full)
    ensures AllChained(c, Whole(full[..n]))
  {
    PrefixIsFirst(Whole(full[..n]), full);
    FirstChained(c, full, Count(Whole(full[..n])));
  }

  lemma {:induction false} WritingKeeps(c: Codec, raw: Bytes, w: Writing)
    requires Faithful(c) && AllChained(c, Whole(raw)) && OwnHashes(w)
    ensures AllChained(c, Whole(After(c, raw, w)))
  {
    var full := AppendTo(c, raw, w.stamp, w.entry).raw;
    AppendChains(c, raw, w.stamp, w.entry);
    CutKeeps(c, full, |full|);
    assert full[..|full|] == full;
    if w.cut.Some? && |Whole(raw)| <= w.cut.value <= |full| {
      CutKeeps(c, full, w.cut.value);
    }
  }

  lemma {:induction false} AppendChains(c: Codec, raw: Bytes, stamp: Entry, entry: Entry)
    requires Faithful(c) && AllChained(c, Whole(raw)) && "hash" !in stamp && "hash" !in entry
    ensures Lined(AppendTo(c, raw, stamp, entry).raw) && AllChained(c, AppendTo(c, raw, stamp, entry).raw)
  {
    ChainedNoStray(c, Whole(raw));
    AppendAdds(c, raw, stamp, entry);
  }

  lemma {:induction false} ChainedNoStray(c: Codec, keep: Bytes)
    requires Lined(keep) && AllChained(c, keep)
    ensures !Strays(c, keep)
  {
    ChainedAtMost(c, keep);
  }

  // Over every run of writings from an empty record, each whole or stopped
  // at any byte, the record verifies and every whole line of it is chained.
  lemma {:induction false} EveryRunVerifies(c: Codec, ws: seq<Writing>)
    requires Faithful(c) && forall w :: w in ws ==> OwnHashes(w)
    ensures Verifies(c, WriteOn(c, [], ws)) && AllChained(c, Whole(WriteOn(c, [], ws)))
  {
    if ws != [] {
      EveryRunVerifies(c, ws[..|ws| - 1]);
      WritingKeeps(c, WriteOn(c, [], ws[..|ws| - 1]), ws[|ws| - 1]);
    }
  }

  // Nothing written takes a whole line out or changes one.
  lemma {:induction false} WritingKeepsLines(c: Codec, raw: Bytes, w: Writing)
    requires Faithful(c)
    ensures Whole(raw) <= Whole(After(c, raw, w))
  {
    var full := AppendTo(c, raw, w.stamp, w.entry).raw;
    AppendIsLines(c, raw, w.stamp, w.entry);
    WholeOfLined(full);
    if w.cut.Some? && |Whole(raw)| <= w.cut.value <= |full| {
      KeptLines(Whole(raw), full[..w.cut.value]);
    }
  }

  lemma {:induction false} KeptLines(keep: Bytes, raw: Bytes)
    requires Lined(keep) && keep <= raw
    ensures keep <= Whole(raw)
  {
    if keep != [] {
      assert raw[|keep| - 1] == LF;
    }
  }

  lemma {:induction false} WholeOfLined(raw: Bytes)
    requires Lined(raw)
    ensures Whole(raw) == raw && Torn(raw) == []
  {
    AfterNewlineIs(raw, |raw|);
  }

  lemma {:induction false} AppendIsLines(c: Codec, raw: Bytes, stamp: Entry, entry: Entry)
    requires Faithful(c)
    ensures var after := AppendTo(c, raw, stamp, entry).raw;
            Lined(after) && Whole(raw) <= after
  {
    var keep, torn := Whole(raw), Torn(raw);
    var at := ChainState(c, keep);
    if torn != [] {
      var said := WriteLine(c, keep, stamp, TornEntry(c, torn), at);
      assert keep <= said.raw;
    }
  }

  // ---- The file, appended to in place

  // Entries written one after the other, each chained to the one before.
  function WriteEach(c: Codec, keep: Bytes, stamp: Entry, lines: seq<Entry>, at: Standing): Appended
    requires lines != []
  {
    if |lines| == 1 then WriteLine(c, keep, stamp, lines[0], at)
    else
      var said := WriteEach(c, keep, stamp, lines[..|lines| - 1], at);
      WriteLine(c, said.raw, stamp, lines[|lines| - 1], Standing(Str(said.head), None))
  }

  class RecordFile {
    var raw: Bytes

    constructor ()
      ensures raw == []
    {
      raw := [];
    }

    method StateOfChain(c: Codec) returns (prev: Json, older: Option<Bytes>)
      ensures Standing(prev, older) == ChainState(c, raw)
    {
      if raw == [] {
        return Str(""), Some([]);
      }
      var line := LastLine(raw);
      var got := TruthyHash(c, line);
      if got.Some? {
        return got.value, None;
      }
      var pieces := Pieces(raw);
      var i := |pieces|;
      assert pieces[..i] == pieces;
      while i > 0
        invariant 0 <= i <= |pieces| && LastHash(c, pieces[..i]) == LastHash(c, pieces)
      {
        i := i - 1;
        assert pieces[..i + 1][..i] == pieces[..i];
        got := TruthyHash(c, pieces[i]);
        if got.Some? {
          return got.value, None;
        }
      }
      return Str(""), Some(raw);
    }

    method Append(c: Codec, stamp: Entry, entry: Entry) returns (head: string)
      modifies this
      ensures Appended(raw, head) == AppendTo(c, old(raw), stamp, entry)
    {
      var torn;
      raw, torn := TakeWhole(raw);
      var prev, older := StateOfChain(c);
      var lines := if torn == [] then [entry] else [TornEntry(c, torn), entry];
      var out;
      out, head := LinesFor(c, raw, stamp, lines, prev, older);
      WriteEachIsAppend(c, raw, stamp, torn, entry, Standing(prev, older));
      raw := raw + out;
    }
  }

  method LinesFor(c: Codec, ghost keep: Bytes, stamp: Entry, lines: seq<Entry>, first: Json, opening: Option<Bytes>)
    returns (out: Bytes, head: string)
    requires lines != []
    ensures Appended(keep + out, head) == WriteEach(c, keep, stamp, lines, Standing(first, opening))
  {
    var prev, older := first, opening;
    out, head := [], "";
    for i := 0 to |lines|
      invariant i == 0 ==> out == [] && Standing(prev, older) == Standing(first, opening)
      invariant i > 0 ==> Standing(prev, older) == Standing(Str(head), None)
      invariant i > 0 ==> Appended(keep + out, head) == WriteEach(c, keep, stamp, lines[..i], Standing(first, opening))
    {
      WriteEachGrows(c, keep, stamp, lines, i, Standing(first, opening));
      assert i == 0 ==> keep + out == keep;
      var line;
      line, head := LineFor(c, keep + out, stamp, lines[i], prev, older);
      assert keep + out + line == keep + (out + line);
      prev, older, out := Str(head), None, out + line;
    }
    assert lines[..|lines|] == lines;
  }

  method LineFor(c: Codec, ghost keep: Bytes, stamp: Entry, one: Entry, prev: Json, older: Option<Bytes>)
    returns (line: Bytes, head: string)
    ensures Appended(keep + line, head) == WriteLine(c, keep, stamp, one, Standing(prev, older))
  {
    var body := stamp + one + map["prev" := prev];
    if !Truthy(prev) && older.Some? && older.value != [] {
      body := body["older" := Str(c.sha(older.value))];
    }
    head := HashOf(c, body);
    body := body["hash" := Str(head)];
    line := c.dump(body) + [LF];
    assert keep + line == keep + c.dump(body) + [LF];
  }

  lemma {:induction false} WriteEachGrows(c: Codec, keep: Bytes, stamp: Entry, lines: seq<Entry>, i: nat, at: Standing)
    requires i < |lines|
    ensures i == 0 ==> WriteEach(c, keep, stamp, lines[..i + 1], at) == WriteLine(c, keep, stamp, lines[i], at)
    ensures i > 0 ==> var said := WriteEach(c, keep, stamp, lines[..i], at);
                      WriteEach(c, keep, stamp, lines[..i + 1], at) == WriteLine(c, said.raw, stamp, lines[i], Standing(Str(said.head), None))
  {
    assert lines[..i + 1][..i] == lines[..i];
  }

  lemma {:induction false} WriteEachIsAppend(c: Codec, keep: Bytes, stamp: Entry, torn: Bytes, entry: Entry, at: Standing)
    ensures WriteEach(c, keep, stamp, [entry], at) == WriteLine(c, keep, stamp, entry, at)
    ensures var said := WriteLine(c, keep, stamp, TornEntry(c, torn), at);
            WriteEach(c, keep, stamp, [TornEntry(c, torn), entry], at)
            == WriteLine(c, said.raw, stamp, entry, Standing(Str(said.head), None))
  {
    var lines := [TornEntry(c, torn), entry];
    assert lines[..1] == [TornEntry(c, torn)];
  }
}
