// Rows as PostgreSQL's COPY text (`bench/seed.py`), read back by the rules
// of "Text Format" in its reference page.
module CopyText {
  import opened LastEvent
  import opened Lsn
  import opened Text

  // A field is a text or NULL.
  type Row = seq<Option<string>>

  const BACKSLASH: char := '\\'

  // ---- Writing

  function Replace(s: string, c: char, sub: string): string {
    if s == [] then [] else (if s[0] == c then sub else [s[0]]) + Replace(s[1..], c, sub)
  }

  function Replaced(s: string): string {
    Replace(Replace(Replace(Replace(s, BACKSLASH, "\\\\"), '\t', "\\t"), '\n', "\\n"), '\r', "\\r")
  }

  function EscapeOne(c: char): string {
    if c == BACKSLASH then "\\\\" else if c == '\t' then "\\t" else if c == '\n' then "\\n" else if c == '\r' then "\\r" else [c]
  }

  function Escape(s: string): string { if s == [] then [] else EscapeOne(s[0]) + Escape(s[1..]) }

  lemma {:induction false} ReplaceBoth(a: string, b: string, c: char, sub: string)
    ensures Replace(a + b, c, sub) == Replace(a, c, sub) + Replace(b, c, sub)
  {
    if a == [] {
      assert a + b == b;
    } else {
      assert (a + b)[1..] == a[1..] + b;
      ReplaceBoth(a[1..], b, c, sub);
    }
  }

  lemma {:induction false} ReplaceFew(a: char, b: char, c: char, sub: string)
    ensures Replace([a], c, sub) == if a == c then sub else [a]
    ensures a != c && b != c ==> Replace([a, b], c, sub) == [a, b]
  {
    assert [a][1..] == [] && [a, b][1..] == [b] && [b][1..] == [];
    assert sub + [] == sub;
    assert Replace([b], c, sub) == if b == c then sub else [b];
  }

  lemma {:induction false} ReplacedOne(c: char)
    ensures Replaced([c]) == EscapeOne(c)
  {
    ReplaceFew(c, c, BACKSLASH, "\\\\");
    ReplaceFew(c, c, '\t', "\\t");
    ReplaceFew(c, c, '\n', "\\n");
    ReplaceFew(c, c, '\r', "\\r");
    ReplaceFew(BACKSLASH, BACKSLASH, '\t', "\\t");
    ReplaceFew(BACKSLASH, BACKSLASH, '\n', "\\n");
    ReplaceFew(BACKSLASH, BACKSLASH, '\r', "\\r");
    ReplaceFew(BACKSLASH, 't', '\n', "\\n");
    ReplaceFew(BACKSLASH, 't', '\r', "\\r");
    ReplaceFew(BACKSLASH, 'n', '\r', "\\r");
    assert "\\\\" == [BACKSLASH, BACKSLASH] && "\\t" == [BACKSLASH, 't'] && "\\n" == [BACKSLASH, 'n'];
  }

  // The four replacements one after another escape each character once: what
  // one of them writes, no later one escapes again.
  lemma {:induction false} ReplacesAreOnePass(s: string)
    ensures Replaced(s) == Escape(s)
  {
    if s != [] {
      assert s == [s[0]] + s[1..];
      var a, b := [s[0]], s[1..];
      ReplaceBoth(a, b, BACKSLASH, "\\\\");
      var a1, b1 := Replace(a, BACKSLASH, "\\\\"), Replace(b, BACKSLASH, "\\\\");
      ReplaceBoth(a1, b1, '\t', "\\t");
      var a2, b2 := Replace(a1, '\t', "\\t"), Replace(b1, '\t', "\\t");
      ReplaceBoth(a2, b2, '\n', "\\n");
      ReplaceBoth(Replace(a2, '\n', "\\n"), Replace(b2, '\n', "\\n"), '\r', "\\r");
      ReplacedOne(s[0]);
      ReplacesAreOnePass(s[1..]);
    }
  }

  function Field(value: Option<string>): string { if value == None then "\\N" else Escape(value.value) }

  function Fields(row: Row): (fs: seq<string>)
    ensures |fs| == |row| && forall i :: 0 <= i < |fs| ==> fs[i] == Field(row[i])
  {
    seq(|row|, i requires 0 <= i < |row| => Field(row[i]))
  }

  function Copied(batch: seq<Row>): string {
    if batch == [] then [] else Copied(batch[..|batch| - 1]) + Join(Fields(batch[|batch| - 1]), '\t') + "\n"
  }

  method CopyRows(batch: seq<Row>) returns (text: string)
    ensures text == Copied(batch)
  {
    text := [];
    for i := 0 to |batch|
      invariant text == Copied(batch[..i])
    {
      var row, fields := batch[i], [];
      for j := 0 to |row|
        invariant fields == Fields(row)[..j]
      {
        if row[j] == None {
          fields := fields + ["\\N"];
        } else {
          ReplacesAreOnePass(row[j].value);
          fields := fields + [Replaced(row[j].value)];
        }
      }
      assert fields == Fields(row);
      assert batch[..i + 1][..i] == batch[..i];
      text := text + (Join(fields, '\t') + "\n");
      assert text == Copied(batch[..i]) + Join(Fields(row), '\t') + "\n";
    }
    assert batch[..|batch|] == batch;
  }

  // ---- Reading

  // Where the field ends: at the first tab or line break no backslash is
  // before.
  function FieldEnd(s: string): (e: nat)
    ensures e <= |s| && (e < |s| ==> s[e] in "\t\n\r")
  {
    if s == [] || s[0] in "\t\n\r" then 0
    else if s[0] == BACKSLASH && |s| > 1 then 2 + FieldEnd(s[2..])
    else 1 + FieldEnd(s[1..])
  }

  // Up to n digits of a base, and how many there were.
  function Digits(s: string, base: int, n: nat): (int, nat)
    ensures Digits(s, base, n).1 <= |s|
  {
    if n == 0 || s == [] || ValueOf(s[0]).None? || ValueOf(s[0]).value >= base then (0, 0)
    else
      var rest := Digits(s[1..], base, n - 1);
      (ValueOf(s[0]).value * Power(base, rest.1) + rest.0, rest.1 + 1)
  }

  function Power(base: int, n: nat): int { if n == 0 then 1 else base * Power(base, n - 1) }

  function Low(v: int): char { (v % 256) as char }

  // What stands for a character after a backslash: itself, where nothing else
  // does. An end-of-data marker is no data.
  function Unescape(s: string): Option<string> {
    if s == [] then Some([])
    else if s[0] != BACKSLASH || |s| == 1 then Then([s[0]], Unescape(s[1..]))
    else
      var c := s[1];
      if c == '.' then None
      else if '0' <= c <= '7' then
        var got := Digits(s[1..], 8, 3);
        if got.1 == 0 then None else Then([Low(got.0)], Unescape(s[1 + got.1..]))
      else if c == 'x' && Digits(s[2..], 16, 2).1 > 0 then
        Then([Low(Digits(s[2..], 16, 2).0)], Unescape(s[2 + Digits(s[2..], 16, 2).1..]))
      else
        var stands := if c == 'b' then 8 as char else if c == 'f' then 12 as char else if c == 'n' then '\n'
                      else if c == 'r' then '\r' else if c == 't' then '\t' else if c == 'v' then 11 as char else c;
        Then([stands], Unescape(s[2..]))
  }

  function Then(first: string, rest: Option<string>): Option<string> {
    if rest == None then None else Some(first + rest.value)
  }

  function ReadField(raw: string): Option<Option<string>> {
    if raw == "\\N" then Some(None)
    else
      var text := Unescape(raw);
      if text == None then None else Some(Some(text.value))
  }

  // A row and what follows it; a carriage return by itself ends none.
  function ReadRow(s: string): Option<(Row, string)>
    decreases |s|
  {
    var e := FieldEnd(s);
    var field := ReadField(s[..e]);
    if field == None then None
    else if e == |s| then Some(([field.value], []))
    else if s[e] == '\n' then Some(([field.value], s[e + 1..]))
    else if s[e] == '\r' then None
    else
      var rest := ReadRow(s[e + 1..]);
      if rest == None then None else Some(([field.value] + rest.value.0, rest.value.1))
  }

  lemma {:induction false} ReadRowShorter(s: string)
    requires s != [] && ReadRow(s).Some?
    ensures |ReadRow(s).value.1| < |s|
    decreases |s|
  {
    var e := FieldEnd(s);
    if e < |s| && s[e] == '\t' && s[e + 1..] != [] {
      ReadRowShorter(s[e + 1..]);
    }
  }

  function ReadRows(s: string): Option<seq<Row>>
    decreases |s|
  {
    if s == [] then Some([])
    else
      var got := ReadRow(s);
      if got == None then None
      else
        ReadRowShorter(s);
        var rest := ReadRows(got.value.1);
        if rest == None then None else Some([got.value.0] + rest.value)
  }

  // ---- Back again

  lemma {:induction false} OneEnds(c: char, tail: string)
    ensures FieldEnd(EscapeOne(c) + tail) == |EscapeOne(c)| + FieldEnd(tail)
  {
    var s := EscapeOne(c) + tail;
    assert s[|EscapeOne(c)|..] == tail;
  }

  lemma {:induction false} OneReads(c: char, tail: string)
    ensures Unescape(EscapeOne(c) + tail) == Then([c], Unescape(tail))
  {
    var s := EscapeOne(c) + tail;
    assert s[|EscapeOne(c)|..] == tail;
  }

  lemma {:induction false} EscapedEnds(t: string, rest: string)
    requires rest == [] || rest[0] in "\t\n\r"
    ensures FieldEnd(Escape(t) + rest) == |Escape(t)|
  {
    if t == [] {
      assert Escape(t) + rest == rest;
    } else {
      EscapedEnds(t[1..], rest);
      OneEnds(t[0], Escape(t[1..]) + rest);
      assert Escape(t) + rest == EscapeOne(t[0]) + (Escape(t[1..]) + rest);
    }
  }

  lemma {:induction false} EscapedReads(t: string)
    ensures Unescape(Escape(t)) == Some(t)
  {
    if t != [] {
      EscapedReads(t[1..]);
      OneReads(t[0], Escape(t[1..]));
      assert t == [t[0]] + t[1..];
    }
  }

  lemma {:induction false} NeverNull(t: string)
    ensures Escape(t) != "\\N"
  {
    if t != [] {
      var one, none := EscapeOne(t[0]), "\\N";
      assert none[0] == BACKSLASH && none[1] == 'N';
      if |one| == 2 {
        assert Escape(t)[1] == one[1] && one[1] != 'N';
      } else {
        assert Escape(t)[0] == one[0] && one[0] != BACKSLASH;
      }
    }
  }

  lemma {:induction false} FieldReads(value: Option<string>, rest: string)
    requires rest == [] || rest[0] in "\t\n\r"
    ensures FieldEnd(Field(value) + rest) == |Field(value)| && ReadField(Field(value)) == Some(value)
  {
    if value == None {
      var s := "\\N" + rest;
      assert s[2..] == rest;
    } else {
      EscapedEnds(value.value, rest);
      EscapedReads(value.value);
      NeverNull(value.value);
    }
  }

  lemma {:induction false} LastFieldReads(value: Option<string>, rest: string)
    ensures ReadRow(Field(value) + ("\n" + rest)) == Some(([value], rest))
  {
    var field, after := Field(value), "\n" + rest;
    FieldReads(value, after);
    assert (field + after)[..|field|] == field && (field + after)[|field| + 1..] == rest;
  }

  lemma {:induction false} NextFieldReads(value: Option<string>, tail: string, row: Row, rest: string)
    requires ReadRow(tail) == Some((row, rest))
    ensures ReadRow(Field(value) + ("\t" + tail)) == Some(([value] + row, rest))
  {
    var field, after := Field(value), "\t" + tail;
    FieldReads(value, after);
    assert (field + after)[..|field|] == field && (field + after)[|field| + 1..] == tail;
  }

  lemma {:induction false} JoinedFields(row: Row, end: string)
    requires row != []
    ensures Join(Fields(row), '\t') + end
            == Field(row[0]) + if |row| == 1 then end else "\t" + (Join(Fields(row[1..]), '\t') + end)
  {
    assert Fields(row)[1..] == Fields(row[1..]);
  }

  lemma {:induction false} FirstAndRest(row: Row)
    requires row != []
    ensures row == [row[0]] + row[1..] && (|row| == 1 ==> row == [row[0]])
  {
  }

  lemma {:induction false} RowReads(row: Row, rest: string)
    requires row != []
    ensures ReadRow(Join(Fields(row), '\t') + ("\n" + rest)) == Some((row, rest))
  {
    FirstAndRest(row);
    JoinedFields(row, "\n" + rest);
    if |row| == 1 {
      LastFieldReads(row[0], rest);
    } else {
      RowReads(row[1..], rest);
      NextFieldReads(row[0], Join(Fields(row[1..]), '\t') + ("\n" + rest), row[1..], rest);
    }
  }

  function Followed(rows: seq<Row>, more: Option<seq<Row>>): Option<seq<Row>> {
    if more == None then None else Some(rows + more.value)
  }

  lemma {:induction false} FollowedBoth(a: seq<Row>, b: seq<Row>, more: Option<seq<Row>>)
    ensures Followed(a, Followed(b, more)) == Followed(a + b, more) && Followed([], more) == more
  {
    if more.Some? {
      assert a + (b + more.value) == a + b + more.value;
      assert [] + more.value == more.value;
    }
  }

  lemma {:induction false} RowThen(s: string, row: Row, rest: string)
    requires s != [] && ReadRow(s) == Some((row, rest))
    ensures ReadRows(s) == Followed([row], ReadRows(rest))
  {
  }

  lemma {:induction false} LineReads(row: Row, rest: string)
    requires row != []
    ensures ReadRows(Join(Fields(row), '\t') + ("\n" + rest)) == Followed([row], ReadRows(rest))
  {
    RowReads(row, rest);
    RowThen(Join(Fields(row), '\t') + ("\n" + rest), row, rest);
  }

  lemma {:induction false} CopiedOne(batch: seq<Row>, rest: string)
    requires batch != []
    ensures Copied(batch) + rest
            == Copied(batch[..|batch| - 1]) + (Join(Fields(batch[|batch| - 1]), '\t') + ("\n" + rest))
  {
    var joined := Join(Fields(batch[|batch| - 1]), '\t');
    assert Copied(batch[..|batch| - 1]) + joined + "\n" + rest == Copied(batch[..|batch| - 1]) + (joined + ("\n" + rest));
  }

  lemma {:induction false} RowsRead(batch: seq<Row>, rest: string)
    requires forall row :: row in batch ==> row != []
    ensures ReadRows(Copied(batch) + rest) == Followed(batch, ReadRows(rest))
  {
    if batch == [] {
      assert Copied(batch) + rest == rest;
      FollowedBoth([], [], ReadRows(rest));
    } else {
      var less, row := batch[..|batch| - 1], batch[|batch| - 1];
      assert batch == less + [row] && row in batch;
      forall r | r in less ensures r != [] { assert r in batch; }
      CopiedOne(batch, rest);
      RowsRead(less, Join(Fields(row), '\t') + ("\n" + rest));
      LineReads(row, rest);
      FollowedBoth(less, [row], ReadRows(rest));
    }
  }

  // No field or row boundary is made or lost, and NULL is never the text of
  // two characters: what is read is what was written, where every row has a
  // field.
  lemma {:induction false} CopyReadsBack(batch: seq<Row>)
    requires forall row :: row in batch ==> row != []
    ensures ReadRows(Copied(batch)) == Some(batch)
  {
    RowsRead(batch, []);
    assert Copied(batch) + [] == Copied(batch) && batch + [] == batch;
  }

  // Whatever is read has a field in every row, so a row of none is the only
  // one that does not come back.
  lemma {:induction false} RowsHaveFields(s: string)
    ensures ReadRows(s).Some? ==> forall row :: row in ReadRows(s).value ==> row != []
    decreases |s|
  {
    if s != [] && ReadRow(s).Some? {
      ReadRowShorter(s);
      RowsHaveFields(ReadRow(s).value.1);
    }
  }

  lemma {:induction false} CopyReadsBackExactly(batch: seq<Row>)
    ensures ReadRows(Copied(batch)) == Some(batch) <==> forall row :: row in batch ==> row != []
  {
    RowsHaveFields(Copied(batch));
    if forall row :: row in batch ==> row != [] {
      CopyReadsBack(batch);
    }
  }
}
