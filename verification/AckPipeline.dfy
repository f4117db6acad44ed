// Records read, spooled to a journal and acknowledged, with crashes that drop
// what is not spooled (`migkit/ack_lattice.py`).
module AckPipeline {
  import opened AckLattice
  import opened LastEvent

  datatype Rec = Rec(pos: int, payload: string)

  // What is in memory - the positions and the records not spooled - and what
  // is on disk: the journal and the positions as last written.
  datatype Pipe = Pipe(lattice: Lattice, unspooled: seq<Rec>, journal: seq<Rec>, saved: Lattice)

  const EMPTY := Pipe(START, [], [], START)

  function Upto(rs: seq<Rec>, target: int): (u: seq<Rec>)
    ensures forall r :: r in u <==> r in rs && r.pos <= target
  {
    if rs == [] then []
    else
      assert rs == rs[..|rs| - 1] + [rs[|rs| - 1]];
      Upto(rs[..|rs| - 1], target) + if rs[|rs| - 1].pos <= target then [rs[|rs| - 1]] else []
  }

  function Past(rs: seq<Rec>, target: int): (u: seq<Rec>)
    ensures forall r :: r in u <==> r in rs && r.pos > target
  {
    if rs == [] then []
    else
      assert rs == rs[..|rs| - 1] + [rs[|rs| - 1]];
      Past(rs[..|rs| - 1], target) + if rs[|rs| - 1].pos > target then [rs[|rs| - 1]] else []
  }

  function Furthest(rs: seq<Rec>): (m: int)
    requires rs != []
    ensures (exists r :: r in rs && r.pos == m) && forall r :: r in rs ==> r.pos <= m
  {
    var last := rs[|rs| - 1];
    assert rs == rs[..|rs| - 1] + [last];
    if |rs| == 1 then last.pos else Max(Furthest(rs[..|rs| - 1]), last.pos)
  }

  // ---- Steps

  function Target(s: Pipe, to: Option<int>): int { if to.Some? then to.value else s.lattice.read }

  function Saved(s: Pipe): Pipe { s.(saved := s.lattice) }

  function DoRead(s: Pipe, r: Rec): Pipe {
    s.(unspooled := s.unspooled + [r], lattice := Advanced(s.lattice, Read, r.pos))
  }

  function DoSpool(s: Pipe, to: Option<int>): Pipe {
    var t := Target(s, to);
    var flush := Upto(s.unspooled, t);
    var now := s.(unspooled := Past(s.unspooled, t), journal := s.journal + flush);
    Saved(if flush != [] then now.(lattice := Advanced(now.lattice, Retained, Furthest(flush)))
          else if t <= now.lattice.retained then now
          else now.(lattice := Advanced(now.lattice, Retained, t)))
  }

  function DoAck(s: Pipe, p: int): Pipe {
    if p <= s.lattice.retained then Saved(s.(lattice := Advanced(s.lattice, Acked, p))) else s
  }

  function DoRestart(s: Pipe): Pipe { Pipe(s.saved, [], s.journal, s.saved) }

  // What comes past applied is what a consumer goes on with.
  function Reconstructed(s: Pipe): seq<Rec> { Past(s.journal, s.lattice.applied) }

  datatype Happening =
    | Reads(rec: Rec)
    | Spools(to: Option<int>)
    | SpoolDies(to: Option<int>, landed: nat)
    | Acks(pos: int)
    | Applies(pos: int)
    | Proves(pos: int)
    | Crashes
    | Restarts

  function Stepped(s: Pipe, e: Happening): Pipe {
    match e
    case Reads(r) => DoRead(s, r)
    case Spools(to) => DoSpool(s, to)
    case SpoolDies(to, n) =>
      var flush := Upto(s.unspooled, Target(s, to));
      DoRestart(s.(journal := s.journal + if n < |flush| then flush[..n] else flush))
    case Acks(p) => DoAck(s, p)
    case Applies(p) => Saved(s.(lattice := Advanced(s.lattice, Applied, p)))
    case Proves(p) => Saved(s.(lattice := Advanced(s.lattice, Proved, p)))
    case Crashes => s.(unspooled := [])
    case Restarts => DoRestart(s)
  }

  // ---- The source, and how far it has been read

  // The source's records by position; positions start above 0.
  type Source = s: map<int, string> | forall p :: p in s ==> p > 0

  predicate Journaled(source: Source, journal: seq<Rec>, upto: int) {
    forall p :: p in source && p <= upto ==> Rec(p, source[p]) in journal
  }

  // Read without a gap to there since the last restart: a restart reads on
  // from what is retained.
  function Reached(reached: int, now: Pipe, e: Happening): int {
    match e
    case Reads(r) => Max(reached, r.pos)
    case Spools(_) => Max(reached, now.lattice.retained)
    case SpoolDies(_, _) => now.lattice.retained
    case Crashes => now.lattice.retained
    case Restarts => now.lattice.retained
    case _ => reached
  }

  // All that is retained is in the journal - and all that will be, after a
  // restart - and all read past it waits to be spooled.
  ghost predicate Safe(source: Source, s: Pipe, reached: int) {
    && InStep(s.lattice) && InStep(s.saved) && s.lattice.retained <= reached
    && Journaled(source, s.journal, s.lattice.retained) && Journaled(source, s.journal, s.saved.retained)
    && (forall p :: p in source && s.lattice.retained < p <= reached ==> Rec(p, source[p]) in s.unspooled)
    && (forall r :: r in s.unspooled ==> r.pos <= reached)
  }

  // A record of the source, read again or the next one.
  predicate InTurn(source: Source, reached: int, r: Rec) {
    r.pos in source && source[r.pos] == r.payload && forall p :: p in source && reached < p ==> r.pos <= p
  }

  // Nothing to flush, and the retained position still moved over a record
  // that was not read since the restart nor ever journaled.
  ghost predicate Blind(source: Source, s: Pipe, reached: int, to: Option<int>) {
    var t := Target(s, to);
    && Upto(s.unspooled, t) == []
    && exists p :: p in source && reached < p <= t && Rec(p, source[p]) !in s.journal
  }

  ghost predicate Proper(source: Source, s: Pipe, reached: int, e: Happening) {
    match e
    case Reads(r) => InTurn(source, reached, r)
    case Spools(to) => !Blind(source, s, reached, to)
    case _ => true
  }

  lemma {:induction false} FlushKeeps(source: Source, s: Pipe, reached: int, to: Option<int>)
    requires Safe(source, s, reached) && Upto(s.unspooled, Target(s, to)) != []
    ensures var now := DoSpool(s, to); Safe(source, now, Max(reached, now.lattice.retained))
  {
    var flush, now := Upto(s.unspooled, Target(s, to)), DoSpool(s, to);
    var m := Furthest(flush);
    AdvanceReaches(s.lattice, Retained, m);
    forall p | p in source && p <= now.lattice.retained ensures Rec(p, source[p]) in now.journal {
      if p > s.lattice.retained {
        assert Rec(p, source[p]) in flush;
      }
    }
    forall p | p in source && now.lattice.retained < p <= reached ensures Rec(p, source[p]) in now.unspooled {
      assert Rec(p, source[p]) in s.unspooled;
      assert Rec(p, source[p]) !in flush;
    }
  }

  lemma {:induction false} NoFlushKeepsExactly(source: Source, s: Pipe, reached: int, to: Option<int>)
    requires Safe(source, s, reached) && Upto(s.unspooled, Target(s, to)) == []
    ensures var now := DoSpool(s, to);
            Safe(source, now, Max(reached, now.lattice.retained)) <==> !Blind(source, s, reached, to)
  {
    var t, now := Target(s, to), DoSpool(s, to);
    AdvanceReaches(s.lattice, Retained, t);
    assert now.journal == s.journal;
    forall r | r in s.unspooled ensures r.pos > t {
      assert r !in Upto(s.unspooled, t);
    }
    assert forall p :: p in source && s.lattice.retained < p <= t ==> p > reached;
  }

  lemma {:induction false} SpoolKeepsExactly(source: Source, s: Pipe, reached: int, to: Option<int>)
    requires Safe(source, s, reached)
    ensures var now := Stepped(s, Spools(to));
            Safe(source, now, Reached(reached, now, Spools(to))) <==> !Blind(source, s, reached, to)
  {
    if Upto(s.unspooled, Target(s, to)) == [] {
      NoFlushKeepsExactly(source, s, reached, to);
    } else {
      FlushKeeps(source, s, reached, to);
    }
  }

  lemma {:induction false} ReadKeeps(source: Source, s: Pipe, reached: int, r: Rec)
    requires Safe(source, s, reached) && InTurn(source, reached, r)
    ensures var now := Stepped(s, Reads(r)); Safe(source, now, Reached(reached, now, Reads(r)))
  {
    var now := DoRead(s, r);
    forall p | p in source && s.lattice.retained < p <= Max(reached, r.pos) ensures Rec(p, source[p]) in now.unspooled {
      if p <= reached {
        assert Rec(p, source[p]) in s.unspooled;
      }
    }
  }

  lemma {:induction false} OthersKeep(source: Source, s: Pipe, reached: int, e: Happening)
    requires Safe(source, s, reached) && !e.Reads? && !e.Spools?
    ensures var now := Stepped(s, e); Safe(source, now, Reached(reached, now, e))
  {
    match e
    case Applies(p) => AdvanceReaches(s.lattice, Applied, p);
    case Proves(p) => AdvanceReaches(s.lattice, Proved, p);
    case _ =>
  }

  // Every proper step keeps it, and a spool is proper exactly where it does.
  lemma {:induction false} StepKeeps(source: Source, s: Pipe, reached: int, e: Happening)
    requires Safe(source, s, reached) && Proper(source, s, reached, e)
    ensures var now := Stepped(s, e); Safe(source, now, Reached(reached, now, e))
  {
    match e
    case Reads(r) => ReadKeeps(source, s, reached, r);
    case Spools(to) => SpoolKeepsExactly(source, s, reached, to);
    case _ => OthersKeep(source, s, reached, e);
  }

  // ---- Runs

  function Ran(es: seq<Happening>): Pipe {
    if es == [] then EMPTY else Stepped(Ran(es[..|es| - 1]), es[|es| - 1])
  }

  function ReachedBy(es: seq<Happening>): int {
    if es == [] then 0 else Reached(ReachedBy(es[..|es| - 1]), Ran(es), es[|es| - 1])
  }

  lemma {:induction false} OneMoreRan(es: seq<Happening>, e: Happening)
    ensures Ran(es + [e]) == Stepped(Ran(es), e)
  {
    assert (es + [e])[..|es|] == es;
  }

  ghost predicate ProperAt(source: Source, es: seq<Happening>, n: nat)
    requires n < |es|
  {
    Proper(source, Ran(es[..n]), ReachedBy(es[..n]), es[n])
  }

  ghost predicate AllProper(source: Source, es: seq<Happening>) {
    forall n :: 0 <= n < |es| ==> ProperAt(source, es, n)
  }

  lemma {:induction false} RunKeeps(source: Source, es: seq<Happening>)
    requires AllProper(source, es)
    ensures Safe(source, Ran(es), ReachedBy(es))
  {
    if es != [] {
      var less := es[..|es| - 1];
      forall n | 0 <= n < |less| ensures ProperAt(source, less, n) {
        assert less[..n] == es[..n] && ProperAt(source, es, n);
      }
      RunKeeps(source, less);
      assert ProperAt(source, es, |less|);
      StepKeeps(source, Ran(less), ReachedBy(less), es[|es| - 1]);
    }
  }

  // Over every proper run, crashes and restarts anywhere: the positions are
  // in step, each record the source was told of is in the journal, and each
  // of them is applied or reconstructed, as it was read.
  lemma {:induction false} NoAckedRecordLost(source: Source, es: seq<Happening>, p: int)
    requires AllProper(source, es) && p in source
    ensures InStep(Ran(es).lattice)
    ensures p <= Ran(es).lattice.ack ==> Rec(p, source[p]) in Ran(es).journal
    ensures p <= Ran(es).lattice.ack ==> p <= Ran(es).lattice.applied || Rec(p, source[p]) in Reconstructed(Ran(es))
  {
    RunKeeps(source, es);
  }

  // ---- What is lost, exactly

  // Once the source is told of all that is retained, a record it was told of
  // is in no journal.
  ghost predicate Loses(source: Source, s: Pipe) {
    var told := Stepped(s, Acks(s.lattice.retained));
    exists p :: p in source && p <= told.lattice.ack && Rec(p, source[p]) !in told.journal
  }

  lemma {:induction false} SafeLosesNothing(source: Source, s: Pipe, reached: int)
    requires Safe(source, s, reached)
    ensures !Loses(source, s)
  {
  }

  // A spool loses a record exactly where it is blind.
  lemma {:induction false} SpoolLosesExactly(source: Source, s: Pipe, reached: int, to: Option<int>)
    requires Safe(source, s, reached)
    ensures Loses(source, Stepped(s, Spools(to))) <==> Blind(source, s, reached, to)
  {
    var now := Stepped(s, Spools(to));
    SpoolKeepsExactly(source, s, reached, to);
    if Blind(source, s, reached, to) {
      var t := Target(s, to);
      var p :| p in source && reached < p <= t && Rec(p, source[p]) !in s.journal;
      assert now.journal == s.journal && now.lattice.retained == t;
      assert Stepped(now, Acks(t)).lattice.ack >= t;
    } else {
      SafeLosesNothing(source, now, Reached(reached, now, Spools(to)));
    }
  }

  // The reads come in turn.
  ghost predicate ReadsInTurn(source: Source, es: seq<Happening>) {
    forall n :: 0 <= n < |es| && es[n].Reads? ==> InTurn(source, ReachedBy(es[..n]), es[n].rec)
  }

  ghost predicate ProperUpTo(source: Source, es: seq<Happening>, n: nat)
    requires n <= |es|
  {
    forall m :: 0 <= m < n ==> ProperAt(source, es, m)
  }

  lemma {:induction false} SafeUpTo(source: Source, es: seq<Happening>, n: nat)
    requires n <= |es| && ProperUpTo(source, es, n)
    ensures Safe(source, Ran(es[..n]), ReachedBy(es[..n]))
  {
    forall m | 0 <= m < n ensures ProperAt(source, es[..n], m) {
      assert es[..n][..m] == es[..m] && ProperAt(source, es, m);
    }
    RunKeeps(source, es[..n]);
  }

  lemma {:induction false} FirstImproper(source: Source, es: seq<Happening>, m: nat) returns (n: nat)
    requires m <= |es| && !ProperUpTo(source, es, m)
    ensures n < m && ProperUpTo(source, es, n) && !ProperAt(source, es, n)
  {
    n := m - 1;
    if !ProperUpTo(source, es, n) {
      n := FirstImproper(source, es, n);
    }
  }

  lemma {:induction false} ImproperLoses(source: Source, es: seq<Happening>, n: nat)
    requires ReadsInTurn(source, es) && n < |es| && ProperUpTo(source, es, n) && !ProperAt(source, es, n)
    ensures Loses(source, Ran(es[..n + 1]))
  {
    SafeUpTo(source, es, n);
    SpoolLosesExactly(source, Ran(es[..n]), ReachedBy(es[..n]), es[n].to);
    OneMoreRan(es[..n], es[n]);
    assert es[..n] + [es[n]] == es[..n + 1];
  }

  // Over any run whose reads come in turn, crashes and restarts anywhere:
  // every spool is proper exactly where nothing is ever lost.
  lemma {:induction false} RunsLoseExactly(source: Source, es: seq<Happening>)
    requires ReadsInTurn(source, es)
    ensures AllProper(source, es) <==> forall n :: 0 <= n <= |es| ==> !Loses(source, Ran(es[..n]))
  {
    if AllProper(source, es) {
      forall n | 0 <= n <= |es| ensures !Loses(source, Ran(es[..n])) {
        SafeUpTo(source, es, n);
        SafeLosesNothing(source, Ran(es[..n]), ReachedBy(es[..n]));
      }
    } else {
      var n := FirstImproper(source, es, |es|);
      ImproperLoses(source, es, n);
    }
  }

  lemma {:induction false} ReadThenCrash(r: Rec)
    ensures Ran([Reads(r), Crashes]) == EMPTY.(lattice := Advanced(START, Read, r.pos))
  {
    assert [] + [Reads(r)] == [Reads(r)] && [Reads(r)] + [Crashes] == [Reads(r), Crashes];
    OneMoreRan([], Reads(r));
    OneMoreRan([Reads(r)], Crashes);
  }

  lemma {:induction false} NothingToFlush(s: Pipe)
    requires s.unspooled == [] && s.lattice.read > s.lattice.retained
    ensures DoSpool(s, None) == Saved(s.(lattice := Advanced(s.lattice, Retained, s.lattice.read)))
  {
    assert s.journal + [] == s.journal;
  }

  // A crash, then a spool of all that was read before it: the source is told
  // of a record that is nowhere.
  lemma {:induction false} StaleSpoolLoses(r: Rec)
    requires r.pos > 0
    ensures var es := [Reads(r), Crashes, Spools(None), Acks(r.pos)];
            Ran(es).lattice.ack == r.pos && Ran(es).journal == [] && Ran(es).unspooled == []
  {
    var b := [Reads(r), Crashes];
    var c := b + [Spools(None)];
    assert c + [Acks(r.pos)] == [Reads(r), Crashes, Spools(None), Acks(r.pos)];
    ReadThenCrash(r);
    OneMoreRan(b, Spools(None));
    NothingToFlush(Ran(b));
    OneMoreRan(c, Acks(r.pos));
  }

  // ---- In order, each once

  ghost predicate Ascending(rs: seq<Rec>) { forall i, j :: 0 <= i < j < |rs| ==> rs[i].pos < rs[j].pos }

  lemma {:induction false} AllUpto(rs: seq<Rec>, target: int)
    requires forall r :: r in rs ==> r.pos <= target
    ensures Upto(rs, target) == rs && Past(rs, target) == []
  {
    if rs != [] {
      AllUpto(rs[..|rs| - 1], target);
      assert rs[|rs| - 1] in rs;
    }
  }

  // Records in order are cut at a position: those up to it, then the rest.
  lemma {:induction false} CutInTwo(rs: seq<Rec>, target: int)
    requires Ascending(rs)
    ensures Upto(rs, target) + Past(rs, target) == rs
  {
    if rs != [] {
      var less, last := rs[..|rs| - 1], rs[|rs| - 1];
      assert rs == less + [last];
      if last.pos <= target {
        AllUpto(rs, target);
      } else {
        PartsAscend(less, [last]);
        CutInTwo(less, target);
        LastIsPast(less, last, target);
        Regrouped(Upto(less, target), Past(less, target), [last]);
      }
    }
  }

  lemma {:induction false} LastIsPast(less: seq<Rec>, last: Rec, target: int)
    requires last.pos > target
    ensures Upto(less + [last], target) == Upto(less, target) && Past(less + [last], target) == Past(less, target) + [last]
  {
    assert (less + [last])[..|less|] == less;
  }

  // What comes in order comes in order up to anywhere, and from anywhere.
  lemma {:induction false} PartsAscend(a: seq<Rec>, b: seq<Rec>)
    requires Ascending(a + b)
    ensures Ascending(a) && Ascending(b)
  {
    assert forall i :: 0 <= i < |a| ==> (a + b)[i] == a[i];
    assert forall i :: 0 <= i < |b| ==> (a + b)[|a| + i] == b[i];
  }

  lemma {:induction false} Regrouped(a: seq<Rec>, b: seq<Rec>, c: seq<Rec>)
    ensures a + (b + c) == a + b + c
  {
  }

  // The records read, in the order they were.
  function ReadOf(es: seq<Happening>): seq<Rec> {
    if es == [] then []
    else ReadOf(es[..|es| - 1]) + if es[|es| - 1].Reads? then [es[|es| - 1].rec] else []
  }

  ghost predicate Interrupts(e: Happening) { e.SpoolDies? || e.Crashes? || e.Restarts? }

  lemma {:induction false} SpoolKeepsOrder(s: Pipe, to: Option<int>)
    requires Ascending(s.journal + s.unspooled)
    ensures DoSpool(s, to).journal + DoSpool(s, to).unspooled == s.journal + s.unspooled
  {
    var t := Target(s, to);
    PartsAscend(s.journal, s.unspooled);
    CutInTwo(s.unspooled, t);
    Regrouped(s.journal, Upto(s.unspooled, t), Past(s.unspooled, t));
    assert s.journal + [] == s.journal;
  }

  lemma {:induction false} StepKeepsOrder(s: Pipe, e: Happening)
    requires Ascending(s.journal + s.unspooled) && !Interrupts(e)
    ensures var now := Stepped(s, e);
            now.journal + now.unspooled == if e.Reads? then s.journal + s.unspooled + [e.rec] else s.journal + s.unspooled
  {
    match e
    case Spools(to) => SpoolKeepsOrder(s, to);
    case Reads(r) => Regrouped(s.journal, s.unspooled, [r]);
    case _ =>
  }

  // Over any run that no crash or restart breaks, read in order: the journal
  // and what waits after it are the records read, in order and each once; and
  // what is reconstructed is the end of the journal that is past applied.
  lemma {:induction false} RunKeepsOrder(es: seq<Happening>)
    requires Ascending(ReadOf(es)) && forall e :: e in es ==> !Interrupts(e)
    ensures Ran(es).journal + Ran(es).unspooled == ReadOf(es)
    ensures Upto(Ran(es).journal, Ran(es).lattice.applied) + Reconstructed(Ran(es)) == Ran(es).journal
  {
    if es != [] {
      var less, e := es[..|es| - 1], es[|es| - 1];
      assert e in es;
      PartsAscend(ReadOf(less), if e.Reads? then [e.rec] else []);
      RunKeepsOrder(less);
      StepKeepsOrder(Ran(less), e);
    }
    PartsAscend(Ran(es).journal, Ran(es).unspooled);
    CutInTwo(Ran(es).journal, Ran(es).lattice.applied);
  }

  // A read past all that is held.
  ghost predicate PastAll(s: Pipe, e: Happening) { e.Reads? ==> forall r :: r in s.journal + s.unspooled ==> r.pos < e.rec.pos }

  lemma {:induction false} AscendingOneMore(rs: seq<Rec>, r: Rec)
    requires Ascending(rs) && forall x :: x in rs ==> x.pos < r.pos
    ensures Ascending(rs + [r])
  {
    assert forall i :: 0 <= i < |rs| ==> rs[i] in rs;
  }

  // A spool that dies leaves a beginning of what was held.
  lemma {:induction false} DyingAscends(s: Pipe, to: Option<int>, landed: nat)
    requires Ascending(s.journal + s.unspooled)
    ensures Ascending(Stepped(s, SpoolDies(to, landed)).journal)
  {
    var t := Target(s, to);
    var flush, rest := Upto(s.unspooled, t), Past(s.unspooled, t);
    PartsAscend(s.journal, s.unspooled);
    CutInTwo(s.unspooled, t);
    Regrouped(s.journal, flush, rest);
    PartsAscend(s.journal + flush, rest);
    if landed < |flush| {
      assert flush == flush[..landed] + flush[landed..];
      Regrouped(s.journal, flush[..landed], flush[landed..]);
      PartsAscend(s.journal + flush[..landed], flush[landed..]);
    }
  }

  lemma {:induction false} StepAscends(s: Pipe, e: Happening)
    requires Ascending(s.journal + s.unspooled) && PastAll(s, e)
    ensures Ascending(Stepped(s, e).journal + Stepped(s, e).unspooled)
  {
    var now := Stepped(s, e);
    if Interrupts(e) {
      PartsAscend(s.journal, s.unspooled);
      assert now.journal + [] == now.journal && now.unspooled == [];
      if e.SpoolDies? {
        DyingAscends(s, e.to, e.landed);
      }
    } else {
      StepKeepsOrder(s, e);
      if e.Reads? {
        AscendingOneMore(s.journal + s.unspooled, e.rec);
      }
    }
  }

  // Crashes and restarts anywhere: while each record read is past all that is
  // held, what is held is in order and nothing is held twice.
  lemma {:induction false} RunAscends(es: seq<Happening>)
    requires forall n :: 0 <= n < |es| ==> PastAll(Ran(es[..n]), es[n])
    ensures Ascending(Ran(es).journal + Ran(es).unspooled) && Ascending(Reconstructed(Ran(es)))
  {
    if es != [] {
      var less, n := es[..|es| - 1], |es| - 1;
      forall m | 0 <= m < n ensures PastAll(Ran(less[..m]), less[m]) {
        assert less[..m] == es[..m] && PastAll(Ran(es[..m]), es[m]);
      }
      RunAscends(less);
      assert es[..n] == less;
      StepAscends(Ran(less), es[n]);
    }
    PartsAscend(Ran(es).journal, Ran(es).unspooled);
    CutInTwo(Ran(es).journal, Ran(es).lattice.applied);
    PartsAscend(Upto(Ran(es).journal, Ran(es).lattice.applied), Reconstructed(Ran(es)));
  }

  // ---- How far each step goes

  // Each position goes up to where it is said, or stays; what is written is
  // written as it stands.
  lemma {:induction false} StepMoves(s: Pipe, p: int)
    requires InStep(s.lattice)
    ensures var l, now := s.lattice, Stepped(s, Applies(p));
            now.lattice == l.(applied := Max(l.applied, p), read := Max(l.read, p)) || (p < l.applied && now.lattice == l)
    ensures Stepped(s, Applies(p)).lattice.applied == Max(s.lattice.applied, p)
    ensures forall r :: Stepped(s, Reads(r)) == s.(unspooled := s.unspooled + [r], lattice := s.lattice.(read := Max(s.lattice.read, r.pos)))
    ensures Stepped(s, Crashes) == Pipe(s.lattice, [], s.journal, s.saved)
    ensures Stepped(s, Restarts) == Pipe(s.saved, [], s.journal, s.saved)
    ensures Stepped(s, Proves(p)).lattice.proved == Max(s.lattice.proved, p)
    ensures Stepped(s, Proves(p)).lattice.applied >= p
    ensures Stepped(s, Acks(p)).lattice.ack == if p <= s.lattice.retained then Max(s.lattice.ack, p) else s.lattice.ack
  {
  }

  lemma {:induction false} SpoolMoves(s: Pipe, to: Option<int>)
    requires InStep(s.lattice)
    ensures var t, was, now := Target(s, to), s.lattice, Stepped(s, Spools(to)).lattice;
            && now.applied == was.applied && now.proved == was.proved && now.ack == was.ack && now.read >= was.read
            && (forall r :: r in s.unspooled && r.pos <= t ==> r.pos <= now.retained)
            && (now.retained == was.retained
                || (exists r :: r in s.unspooled && r.pos <= t && r.pos == now.retained)
                || ((forall r :: r in s.unspooled ==> r.pos > t) && now.retained == t > was.retained))
            && ((forall r :: r in s.unspooled ==> r.pos > t) ==> now.retained == Max(was.retained, t))
  {
    var t := Target(s, to);
    var flush := Upto(s.unspooled, t);
    if flush != [] {
      assert flush[0] in flush;
      var m := Furthest(flush);
    } else {
      forall r | r in s.unspooled ensures r.pos > t { assert r !in flush; }
    }
  }

  // What a spool, an acknowledgement, an apply or a proof leaves is on disk: a
  // crash and a restart go on from there.
  lemma {:induction false} OutlivesRestart(s: Pipe, e: Happening)
    requires e.Spools? || e.Applies? || e.Proves? || (e.Acks? && e.pos <= s.lattice.retained)
    ensures var now := Stepped(s, e);
            Stepped(Stepped(now, Crashes), Restarts) == Pipe(now.lattice, [], now.journal, now.lattice)
  {
  }

  // ---- The pipeline, changed in place

  class DurableAckPipeline {
    const lattice: PositionLattice
    var unspooled: seq<Rec>
    var journal: seq<Rec>
    var saved: Lattice

    // Begun, or begun again, from what is on disk.
    constructor (journal: seq<Rec>, saved: Lattice)
      ensures Now() == Pipe(saved, [], journal, saved)
      ensures fresh(lattice) && !lattice.strict
    {
      lattice := new PositionLattice(saved, false);
      unspooled, this.journal, this.saved := [], journal, saved;
    }

    function Now(): Pipe
      reads this, lattice
    {
      Pipe(lattice.Now(), unspooled, journal, saved)
    }

    method ReadOne(pos: int, payload: string) returns (p: int)
      modifies this, lattice
      ensures Now() == DoRead(old(Now()), Rec(pos, payload)) && p == pos
    {
      unspooled := unspooled + [Rec(pos, payload)];
      var _ := lattice.AdvanceRead(pos);
      return pos;
    }

    method Spool(to: Option<int>) returns (retained: int)
      modifies this, lattice
      ensures Now() == DoSpool(old(Now()), to) && retained == Now().lattice.retained
    {
      var target := if to.Some? then to.value else lattice.readPos;
      var flush := Upto(unspooled, target);
      unspooled := Past(unspooled, target);
      if flush != [] {
        journal := journal + flush;
        var _ := lattice.AdvanceRetained(Furthest(flush));
      } else if target > lattice.retainedPos {
        var _ := lattice.AdvanceRetained(target);
      }
      assert flush == [] ==> journal + flush == journal;
      saved := lattice.Now();
      return lattice.retainedPos;
    }

    method Ack(pos: int) returns (r: Outcome)
      requires !lattice.strict
      modifies this, lattice
      ensures Now() == DoAck(old(Now()), pos)
      ensures r == if pos > old(Now()).lattice.retained then AckRefused else Position(Now().lattice.ack)
    {
      r := lattice.AckSource(pos);
      if r != AckRefused {
        saved := lattice.Now();
      }
    }

    method Apply(pos: int)
      modifies this, lattice
      ensures Now() == Stepped(old(Now()), Applies(pos))
    {
      var _ := lattice.AdvanceApplied(pos);
      saved := lattice.Now();
    }

    method Prove(pos: int)
      modifies this, lattice
      ensures Now() == Stepped(old(Now()), Proves(pos))
    {
      var _ := lattice.AdvanceProved(pos);
      saved := lattice.Now();
    }

    method Crash()
      modifies this
      ensures Now() == Stepped(old(Now()), Crashes)
    {
      unspooled := [];
    }

    method Reconstruct() returns (records: seq<Rec>)
      ensures records == Reconstructed(Now())
    {
      records := [];
      for i := 0 to |journal|
        invariant records == Past(journal[..i], lattice.appliedPos)
      {
        assert journal[..i + 1][..i] == journal[..i];
        if journal[i].pos > lattice.appliedPos {
          records := records + [journal[i]];
        }
      }
      assert journal[..|journal|] == journal;
    }
  }
}
