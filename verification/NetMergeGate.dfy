// Which batches may be merged by key, and what that buys
// (`migkit/apply_contract.py`).
module NetMergeGate {
  import opened LastEvent
  import opened NetMerge

  // The two modes that merge by key, and what their contracts hold to.
  datatype Mode = BatchNetMerge | NativeEndpoint

  predicate NeedsUnique(m: Mode) { m == BatchNetMerge }

  predicate CanRestore(m: Mode) { m == BatchNetMerge }

  // What is known of the workload and the target.
  datatype Facts = Facts(hasKey: bool, keylessDuplicates: bool, crossTable: bool, crossOrder: bool, targetUnique: bool,
                         restoresFirst: bool, needsTriggers: bool)

  datatype Violation = KeylessRows | SplitTransactions | NotEnforced | TriggersLost | CannotInherit | InheritsSilently

  // What the mode would claim and not hold; `claimed` asks for a
  // transaction's own guarantees.
  function Violations(m: Mode, f: Facts, claimed: bool): seq<Violation> {
    (if !f.hasKey || f.keylessDuplicates then [KeylessRows] else [])
    + (if f.crossTable && (m != BatchNetMerge || !f.restoresFirst || f.crossOrder) then [SplitTransactions] else [])
    + (if !f.targetUnique && NeedsUnique(m) then [NotEnforced] else [])
    + (if f.needsTriggers then [TriggersLost] else [])
    + (if !claimed then []
       else if !CanRestore(m) then [CannotInherit]
       else if m == BatchNetMerge && (f.crossTable || !f.targetUnique || f.keylessDuplicates || !f.hasKey) then [InheritsSilently]
       else [])
  }

  // What is violated, all of it and nothing else: rows without a key always;
  // transactions over tables, unless the batch net merge restores them before
  // it is seen and no order counts; a target that does not keep keys unique,
  // by the batch net merge; triggers that are to see every step; and a claim
  // to a transaction's guarantees, by the native mode always.
  lemma {:induction false} ViolationsExactly(m: Mode, f: Facts, claimed: bool, v: Violation)
    ensures var batch, keyless := m == BatchNetMerge, !f.hasKey || f.keylessDuplicates;
            v in Violations(m, f, claimed) <==>
            match v
            case KeylessRows => keyless
            case SplitTransactions => f.crossTable && !(batch && f.restoresFirst && !f.crossOrder)
            case NotEnforced => batch && !f.targetUnique
            case TriggersLost => f.needsTriggers
            case CannotInherit => claimed && !batch
            case InheritsSilently => claimed && batch && (f.crossTable || !f.targetUnique || keyless)
  {
  }

  // So nothing is violated exactly by keyed batches that are seen whole.
  lemma {:induction false} NothingViolatedExactly(m: Mode, f: Facts, claimed: bool)
    ensures Violations(m, f, claimed) == [] <==>
            && f.hasKey && !f.keylessDuplicates && !f.needsTriggers
            && (m == BatchNetMerge ==> f.targetUnique) && (claimed ==> m == BatchNetMerge && !f.crossTable)
            && (f.crossTable ==> m == BatchNetMerge && f.restoresFirst && !f.crossOrder)
  {
  }

  // A batch that fits its table, merged by key with nothing violated, has the
  // rows commit order has - whatever was claimed.
  lemma {:induction false} AdmittedMergeIsCommitOrder(f: Facts, claimed: bool, t: Shape, rows: seq<Cells>, cs: seq<Change>, net: seq<Event<Cells, Cells>>)
    requires Violations(BatchNetMerge, f, claimed) == []
    requires Keyed(t, rows) && AllFit(t, rows, cs) && IsNet(cs, net)
    ensures multiset(AllMerged(rows, net, f.targetUnique)) == multiset(AllApplied(rows, cs))
  {
    MergeIsCommitOrder(t, rows, cs, net);
    assert !f.targetUnique ==> NotEnforced in Violations(BatchNetMerge, f, claimed);
  }

  // The native contract does not ask whether the target keeps keys unique:
  // its merge, nothing violated, has those rows exactly where the target does
  // or no row is put over one that was there.
  lemma {:induction false} NativeMergesExactly(f: Facts, t: Shape, rows: seq<Cells>, cs: seq<Change>, net: seq<Event<Cells, Cells>>)
    requires Violations(NativeEndpoint, f, false) == []
    requires Keyed(t, rows) && AllFit(t, rows, cs) && IsNet(cs, net)
    ensures multiset(AllMerged(rows, net, f.targetUnique)) == multiset(AllApplied(rows, cs))
            <==> f.targetUnique || NoneOver(t, rows, net)
  {
    MergeIsCommitOrder(t, rows, cs, net);
    UnkeptMergesExactly(t, rows, cs, net);
  }

  // One update of one row, nothing violated, and the row is there twice.
  lemma {:induction false} NativeMergeDoubles()
    ensures var f := Facts(true, false, false, false, false, false, false);
            var row, key := map["id" := Val("1"), "v" := Val("a")], map["id" := Val("1")];
            var c := Change("t", Update, key, map[], map["id" := Val("1"), "v" := Val("b")], true);
            && Violations(NativeEndpoint, f, false) == []
            && |AllMerged([row], NetEvents([c]), f.targetUnique)| == 2 && |AllApplied([row], [c])| == 1
  {
    var row, key := map["id" := Val("1"), "v" := Val("a")], map["id" := Val("1")];
    var c := Change("t", Update, key, map[], map["id" := Val("1"), "v" := Val("b")], true);
    assert Violations(NativeEndpoint, Facts(true, false, false, false, false, false, false), false) == [];
    var net := NetEvents([c]);
    assert "id" in key;
    assert net[..0] == [] && [c][..0] == [] && key != map[];
    assert AllMerged([row], net, false) == Merged([row], net[0], false);
    assert AllApplied([row], [c]) == Applied([row], c);
    assert Updated([], key, c.values, true, true) == [] && [row][1..] == [];
  }

  // ---- Tables by themselves

  function OnTable(cs: seq<Change>, table: string): seq<Change> {
    if cs == [] then []
    else OnTable(cs[..|cs| - 1], table) + if cs[|cs| - 1].table == table then [cs[|cs| - 1]] else []
  }

  function Rows(tables: map<string, seq<Cells>>, table: string): seq<Cells> { if table in tables then tables[table] else [] }

  function RunAll(tables: map<string, seq<Cells>>, cs: seq<Change>): map<string, seq<Cells>> {
    if cs == [] then tables
    else
      var before, c := RunAll(tables, cs[..|cs| - 1]), cs[|cs| - 1];
      before[c.table := Applied(Rows(before, c.table), c)]
  }

  // Commit order over all the tables is commit order on each.
  lemma {:induction false} EachTableByItself(tables: map<string, seq<Cells>>, cs: seq<Change>, table: string)
    ensures Rows(RunAll(tables, cs), table) == AllApplied(Rows(tables, table), OnTable(cs, table))
  {
    if cs != [] {
      var less, c := cs[..|cs| - 1], cs[|cs| - 1];
      EachTableByItself(tables, less, table);
      if c.table == table {
        assert OnTable(cs, table)[..|OnTable(less, table)|] == OnTable(less, table);
      } else {
        assert OnTable(cs, table) == OnTable(less, table);
      }
    }
  }
}
