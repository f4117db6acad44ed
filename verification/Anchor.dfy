// The record held to the checkpoints kept of it elsewhere
// (`migkit/anchor.py`).
module Anchor {
  import opened LastEvent
  import opened Audit
  import opened AuditAppend

  // A checkpoint: the entry it stands at and the head of the chain there.
  datatype Checkpoint = Checkpoint(number: nat, head: string)

  // Whether the record's entry at the checkpoint is the one it names.
  predicate HeldBy(c: Codec, raw: Bytes, at: Checkpoint) {
    var local := HashLines(c, Whole(raw));
    1 <= at.number <= |local| && local[at.number - 1] == Some(at.head)
  }

  // A checkpoint taken of one record and held by another, both of which
  // verify, pins every entry up to it.
  lemma {:induction false} CheckpointPins(c: Codec, taken: Bytes, now: Bytes, at: Checkpoint)
    requires Faithful(c) && Verifies(c, taken) && Verifies(c, now)
    requires HeldBy(c, taken, at) && HeldBy(c, now, at)
    ensures at.number <= Count(Whole(taken)) && at.number <= Count(Whole(now))
    ensures Entries(c, Whole(taken))[..at.number] == Entries(c, Whole(now))[..at.number]
  {
    SameHashSamePrefix(c, taken, now, at.number);
  }

  // ---- Taking a checkpoint

  // The last entry that carries a hash; 0 where none does or the record breaks.
  method Position(c: Codec, record: Bytes) returns (at: Checkpoint, broken: bool)
    ensures broken <==> !Verifies(c, record)
    ensures at.number > 0 ==> !broken && HeldBy(c, record, at)
    ensures at.number == 0 && !broken ==> forall h :: h in HashLines(c, Whole(record)) ==> h == None
    ensures forall i :: 0 < at.number <= i < Count(Whole(record)) ==> HashLines(c, Whole(record))[i] == None
  {
    var _, got, _ := Verify(c, record);
    if got.Bad? {
      return Checkpoint(0, ""), true;
    }
    var hashes := Hashes(c, record);
    var i := |hashes|;
    while i > 0
      invariant 0 <= i <= |hashes|
      invariant forall k :: i <= k < |hashes| ==> hashes[k] == None
    {
      if hashes[i - 1].Some? {
        return Checkpoint(i, hashes[i - 1].value), false;
      }
      i := i - 1;
    }
    return Checkpoint(0, ""), false;
  }

  // ---- Holding the record to the bucket

  // One version of an object: what its body says, whether the lock still
  // holds it, and whether its signature does.
  datatype Version = Unread | Version(doc: Checkpoint, locked: bool, ended: bool, signed: bool)

  datatype Object = Object(name: Checkpoint, versions: seq<Version>, marked: bool)

  predicate VersionHolds(v: Version, name: Checkpoint) {
    v.Version? && v.doc == name && v.locked && !v.ended && v.signed
  }

  // The object is what it was written as.
  predicate Intact(o: Object) {
    |o.versions| <= 1 && !o.marked && forall v :: v in o.versions ==> VersionHolds(v, o.name)
  }

  // How a checkpoint and the record compare: a checkpoint named 0 is held to
  // the record's last entry, and to a record of none not at all.
  datatype Stand = Short | Another | Same | Raised

  function StandAt(local: seq<Option<string>>, name: Checkpoint): Stand {
    if name.number > |local| then Short
    else if |local| == 0 then Raised
    else if local[if name.number == 0 then |local| - 1 else name.number - 1] == Some(name.head) then Same
    else Another
  }

  datatype Held = Held(checked: nat, held: nat, problems: nat, latest: nat, since: nat)

  predicate Passes(local: seq<Option<string>>, o: Object) { Intact(o) && StandAt(local, o.name) == Same }

  function Passing(local: seq<Option<string>>, found: seq<Object>): nat {
    if found == [] then 0
    else Passing(local, found[..|found| - 1]) + (if Passes(local, found[|found| - 1]) then 1 else 0)
  }

  method ReadBack(o: Object) returns (bad: nat)
    ensures bad == 0 <==> Intact(o)
  {
    bad := if |o.versions| > 1 then 1 else 0;
    if o.marked {
      bad := bad + 1;
    }
    for i := 0 to |o.versions|
      invariant bad == 0 <==> |o.versions| <= 1 && !o.marked && forall k :: 0 <= k < i ==> VersionHolds(o.versions[k], o.name)
    {
      var v := o.versions[i];
      if v == Unread || v.doc != o.name {
        bad := bad + 1;
        continue;
      }
      if !v.locked {
        bad := bad + 1;
      } else if v.ended {
        bad := bad + 1;
      }
      if !v.signed {
        bad := bad + 1;
      }
    }
  }

  // What the check says, None where it raises: whether the record verifies,
  // and each object against the hashes of its lines.
  ghost predicate Says(local: seq<Option<string>>, verified: bool, found: seq<Object>, out: Option<Held>) {
    && (out.None? <==> exists o :: o in found && StandAt(local, o.name) == Raised)
    && (out.Some? ==>
          && out.value.checked == |found| && out.value.held == Passing(local, found)
          && (out.value.problems == 0 <==> verified && forall o :: o in found ==> Passes(local, o))
          && (forall o :: o in found ==> o.name.number <= out.value.latest)
          && (out.value.latest == 0 || exists o :: o in found && o.name.number == out.value.latest)
          && out.value.since == if |local| > out.value.latest then |local| - out.value.latest else 0)
  }

  method HoldTo(c: Codec, record: Bytes, found: seq<Object>) returns (out: Option<Held>)
    ensures Says(HashLines(c, Whole(record)), Verifies(c, record), found, out)
  {
    var _, got, _ := Verify(c, record);
    var local := Hashes(c, record);
    out := HoldEach(local, got.Good?, found);
  }

  method HoldEach(local: seq<Option<string>>, verified: bool, found: seq<Object>) returns (out: Option<Held>)
    ensures Says(local, verified, found, out)
  {
    var problems: nat, held: nat, latest: nat := if verified then 0 else 1, 0, 0;
    for i := 0 to |found|
      invariant held == Passing(local, found[..i])
      invariant problems == 0 <==> verified && forall o :: o in found[..i] ==> Passes(local, o)
      invariant forall o :: o in found[..i] ==> o.name.number <= latest && StandAt(local, o.name) != Raised
      invariant latest == 0 || exists o :: o in found[..i] && o.name.number == latest
    {
      var o := found[i];
      assert found[..i + 1] == found[..i] + [o] && found[..i + 1][..i] == found[..i];
      var bad := ReadBack(o);
      var stand := StandAt(local, o.name);
      if stand == Raised {
        return None;
      }
      if stand != Same {
        bad := bad + 1;
      }
      if bad > 0 {
        problems := problems + bad;
      } else {
        held := held + 1;
      }
      latest := if o.name.number > latest then o.name.number else latest;
    }
    assert found[..|found|] == found;
    return Some(Held(|found|, held, problems, latest, if |local| > latest then |local| - latest else 0));
  }

  // A check without a problem: every record that verified when a checkpoint
  // was taken of it agrees with the record now on every entry up to it.
  lemma {:induction false} PassingPins(c: Codec, record: Bytes, found: seq<Object>, o: Object, taken: Bytes)
    requires Faithful(c) && Verifies(c, record) && o in found
    requires forall x :: x in found ==> Passes(HashLines(c, Whole(record)), x)
    requires Verifies(c, taken) && HeldBy(c, taken, o.name)
    ensures o.name.number <= Count(Whole(taken)) && o.name.number <= Count(Whole(record))
    ensures Entries(c, Whole(record))[..o.name.number] == Entries(c, Whole(taken))[..o.name.number]
  {
    CheckpointPins(c, taken, record, o.name);
  }

  // ---- Never a false alarm

  lemma {:induction false} LinesKeepHeld(c: Codec, raw: Bytes, now: Bytes, at: Checkpoint)
    requires Whole(raw) <= Whole(now) && HeldBy(c, raw, at)
    ensures HeldBy(c, now, at)
  {
    PrefixIsFirst(Whole(raw), Whole(now));
    FirstReads(c, Whole(now), Count(Whole(raw)));
  }

  lemma {:induction false} HeldAfter(c: Codec, raw: Bytes, w: Writing, at: Checkpoint)
    requires Faithful(c) && HeldBy(c, raw, at)
    ensures HeldBy(c, After(c, raw, w), at)
  {
    WritingKeepsLines(c, raw, w);
    LinesKeepHeld(c, raw, After(c, raw, w), at);
  }

  // Every checkpoint of a record is still held after any further writings of
  // it, each whole or stopped at any byte.
  lemma {:induction false} NeverAFalseAlarm(c: Codec, raw: Bytes, more: seq<Writing>, at: Checkpoint)
    requires Faithful(c) && HeldBy(c, raw, at)
    ensures HeldBy(c, WriteOn(c, raw, more), at)
    decreases |more|
  {
    if more != [] {
      NeverAFalseAlarm(c, raw, more[..|more| - 1], at);
      HeldAfter(c, WriteOn(c, raw, more[..|more| - 1]), more[|more| - 1], at);
    }
  }

  // ---- What the check says, exactly

  // An object is intact where it has one version at most, is not marked as
  // deleted, and what it holds is the checkpoint it is named by, its lock on
  // and not ended and its signature good.
  lemma {:induction false} IntactExactly(o: Object)
    ensures Intact(o) <==>
            && |o.versions| <= 1 && !o.marked
            && (|o.versions| == 1 ==>
                  var v := o.versions[0]; v != Unread && v.doc == o.name && v.locked && !v.ended && v.signed)
  {
    if |o.versions| == 1 {
      assert o.versions[0] in o.versions;
    }
  }

  // Against a checkpoint taken of some record the record stands the same just
  // where it holds it, short where it has not as many entries, and else
  // another.
  lemma {:induction false} StandsExactly(c: Codec, record: Bytes, at: Checkpoint)
    requires at.number >= 1
    ensures var stand := StandAt(HashLines(c, Whole(record)), at);
            && (stand == Same <==> HeldBy(c, record, at))
            && (stand == Short <==> at.number > Count(Whole(record)))
            && stand != Raised
  {
  }

  lemma {:induction false} AllPass(local: seq<Option<string>>, found: seq<Object>)
    requires forall o :: o in found ==> Passes(local, o)
    ensures Passing(local, found) == |found|
  {
    if found != [] {
      AllPass(local, found[..|found| - 1]);
    }
  }

  // The check finds nothing wrong exactly where the record verifies, every
  // object is intact and the record holds its checkpoint; all are held then.
  lemma {:induction false} CheckedExactly(c: Codec, record: Bytes, found: seq<Object>, out: Option<Held>)
    requires Says(HashLines(c, Whole(record)), Verifies(c, record), found, out)
    requires forall o :: o in found ==> o.name.number >= 1
    ensures out.Some? && out.value.checked == |found|
    ensures out.value.problems == 0 <==> Verifies(c, record) && forall o :: o in found ==> Intact(o) && HeldBy(c, record, o.name)
    ensures out.value.problems == 0 ==> out.value.held == |found|
  {
    var local := HashLines(c, Whole(record));
    forall o | o in found ensures StandAt(local, o.name) != Raised && (Passes(local, o) <==> Intact(o) && HeldBy(c, record, o.name)) {
      StandsExactly(c, record, o.name);
    }
    if forall o :: o in found ==> Passes(local, o) {
      AllPass(local, found);
    }
  }

  // A checkpoint the record held once, before some of its writings.
  ghost predicate TakenOf(c: Codec, raw: Bytes, more: seq<Writing>, at: Checkpoint) {
    exists n :: 0 <= n <= |more| && HeldBy(c, WriteOn(c, raw, more[..n]), at)
  }

  lemma {:induction false} HeldSince(c: Codec, raw: Bytes, more: seq<Writing>, n: nat, at: Checkpoint)
    requires Faithful(c) && n <= |more| && HeldBy(c, WriteOn(c, raw, more[..n]), at)
    ensures HeldBy(c, WriteOn(c, raw, more), at)
    decreases |more|
  {
    if n == |more| {
      assert more[..n] == more;
    } else {
      var less := more[..|more| - 1];
      assert less[..n] == more[..n];
      HeldSince(c, raw, less, n, at);
      HeldAfter(c, WriteOn(c, raw, less), more[|more| - 1], at);
    }
  }

  // Intact objects, each of a checkpoint the record held at some time, and the
  // record written on since - whole or stopped at any byte: where it verifies
  // the check finds nothing wrong and holds them all.
  lemma {:induction false} HonestRecordPasses(c: Codec, raw: Bytes, more: seq<Writing>, found: seq<Object>, out: Option<Held>)
    requires Faithful(c) && Verifies(c, WriteOn(c, raw, more))
    requires forall o :: o in found ==> Intact(o) && TakenOf(c, raw, more, o.name)
    requires Says(HashLines(c, Whole(WriteOn(c, raw, more))), true, found, out)
    ensures out.Some? && out.value.problems == 0 && out.value.held == out.value.checked == |found|
  {
    var now := WriteOn(c, raw, more);
    forall o | o in found ensures o.name.number >= 1 && HeldBy(c, now, o.name) {
      var n :| 0 <= n <= |more| && HeldBy(c, WriteOn(c, raw, more[..n]), o.name);
      HeldSince(c, raw, more, n, o.name);
    }
    CheckedExactly(c, now, found, out);
  }
}
