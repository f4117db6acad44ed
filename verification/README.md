# migkit, verified

A Dafny model of the small protocols and algorithms inside migkit that decide
whether moved data is right, and proofs about them. `dafny verify
dfyconfig.toml` checks the whole project.

- **A batch of changes, collapsed** (`LastEvent`, `Occurrences`, `NetRows`,
  `Changes`, `ApplyWay`, `Refusals`, `Plans`, `PlanMeaning`, `RowsWay`,
  `PartialRows`).
  Inserts, updates and deletes, key-moving updates among them, become one row
  per key and are written as deletes and then upserts. Written, rows carried
  whole leave any store exactly as the changes in order would; for rows that are
  not, where they do is stated exactly. And they are the rows the other,
  change-by-change way writes, one for one.
- **Bisection by digest** (`Extremes`, `Bisection`): exact, and within a bound
  on the digests asked.
- **Constrained execution** (`AgentControl`, `AgentProgress`, `AgentLosses`,
  `Scope`): what each call does is stated, a stop is allowed between any two
  durable writes, a write may land after it raised, and
  each unit still takes effect at most once - except through two gaps. A run
  that goes through either can always go on to land a unit twice, and no other
  run can.
- **The hash-chained record and its anchors** (`Audit`, `AuditAppend`,
  `Anchor`): a hash at entry N pins entries 1 to N; appends of any kind, cut at
  any byte, keep a record that verifies and every anchor that held.
- **Archive, remove, restore** (`RemovalOrder`, `ArchiveSteps`,
  `ArchiveRestore`, `Archive`): nothing is lost wherever it stops, and what a
  restore gives back is stated exactly.
- **The acknowledgement lattice and its spool** (`AckLattice`, `AckPipeline`,
  `Lsn`): no record the source was told of is lost over runs whose spools are
  proper, and one can be over any other.
- **Causal dependencies** (`Graphs`, `Causal`, `CausalPlan`): Kahn's algorithm
  decides cycles, and its two answers together admit exactly the plans that can
  be carried out.
- **Addresses and COPY text** (`Text`, `Percent`, `Addresses`, `CopyText`):
  what is written reads back, and exactly when.
- **The net merge and the minimiser** (`NetMerge`, `NetMergeGate`,
  `Minimizer`).

`Names` sorts names by their characters, and `Graphs` holds what the removal
order and the causal check share.

Code that works step by step is methods with loops, and classes where the
source keeps state in an object; each is proved against a function of values,
and the properties are proved of those functions. A stop is a number of durable
writes left, a byte the file is cut at, or the set of rows that landed.

## Where the code does less than is said of it

In each case the code is modelled as it is, and what holds is stated exactly.

- A reconcile settles an operation before the checkpoints it rests on are saved
  (`migkit/agent_control.py:1639-1667`): stopped between, a unit lands twice
  (`AgentControl.CutReconcileLandsTwice`, `AgentControl.ReconcileKeepsExactly`).
- A plan owns its operation as committed whatever the ledger held of it
  (`migkit/agent_control.py:1211-1219`), and a unit lands twice
  (`AgentLosses.PlanOverExecuteLandsTwice`, `AgentControl.PlanKeepsExactly`).
  With the gap before it these are all there are:
  `AgentLosses.RunsLandOnceExactly`.
- Collapsed rows are merged over the row found, not over the one the changes
  bring there (`migkit/engines/base.py:7207-7214`): with rows not carried whole
  they can differ (`PlanMeaning.PartialRowsAreNotKept`,
  `PartialRows.PlanIsInOrderExactly`).
- A value added to and then one kept where it stands, merged, are the value
  kept, and the addition is lost (`migkit/canon.py:311-318`):
  `RowsWay.MergedLandsExactly`.
- Containment of scopes is not transitive for filters on tables a scope does not
  name (`migkit/agent_control.py:425-427`): `Scope.ContainsOnwardExactly`.
- The chain's state is read with lines split at carriage returns too, and an
  entry may bring its own `hash` (`migkit/audit.py:84-91`,
  `migkit/audit.py:132-143`): `AuditAppend.AppendVerifiesExactly`,
  `AuditAppend.StrayHashBreaksAppends`.
- A checkpoint named 0 is held to the last entry, and raises on an empty record
  (`migkit/anchor.py:675-678`): `Anchor.HoldTo`.
- The ledger's `removed` line is written after the rows are gone, and a
  `restored` line drops its whole table (`migkit/archive.py:495-506`,
  `migkit/archive.py:526-529`): `ArchiveRestore.GivesBackExactly`,
  `ArchiveRestore.ResumesExactly`. A restore writes over a row written anew
  (`migkit/archive.py:566`): `ArchiveSteps.PutBackKeepsExactly`.
- With nothing to flush a spool moves the retained position to wherever the
  stream was read, be it before a crash (`migkit/ack_lattice.py:410-413`):
  `AckPipeline.SpoolLosesExactly`, `AckPipeline.RunsLoseExactly`,
  `AckPipeline.StaleSpoolLoses`.
- A database with a comma in its name is quoted and read as two
  (`migkit/addresses.py:242`, `migkit/addresses.py:486`):
  `Addresses.SideReadsBackExactly`.
- A row of no fields is written as an empty line, which is a row of one empty
  field (`bench/seed.py:166`): `CopyText.CopyReadsBackExactly`.
- The native contract does not ask whether the target keeps keys unique, and
  merges by key all the same (`migkit/apply_contract.py:1102-1121`):
  `NetMergeGate.NativeMergesExactly`.
- Minimising can make `False` into 1 (`migkit/ai_proof_loop.py:631-635`):
  `Minimizer.FalseCanBecomeOne`; when, and that nothing else grows,
  `Minimizer.ShrinkNumber`.

## Model

| member | source | states |
|---|---|---|
| LastEvent.FoldIsLast | migkit/applyway.py:281-297 | what a list of events leaves at a key is what its last event there leaves, or what was there |
| LastEvent.SameEventsSameTable | migkit/applyway.py:163-168 | the same events in any order leave every table alike once no key comes twice |
| LastEvent.DoneTwiceIsOnce | migkit/engines/base.py:7295-7298 | any list of events done again leaves what it left |
| Occurrences.FirstTouchedInOrder | migkit/applyway.py:282-284 | keys listed in order of first touch have strictly increasing first touches |
| NetRows.NetDistinct | migkit/engines/base.py:7305-7318 | a batch's net holds each touched place once |
| NetRows.NetAscending | migkit/applyway.py:281-288 | and its first-touch numbers strictly increase |
| NetRows.NetInTable | migkit/applyway.py:217-224 | a table's net by itself is its part of the whole batch's net |
| NetRows.NetLeavesTheSame | migkit/engines/base.py:7291-7345 | writing only the net leaves any store as writing every touch would |
| Changes.ChangesAreTheirTouches | migkit/engines/base.py:7319-7344 | applying changes one by one is doing their touches, key-moving updates included, where writes carry whole rows |
| Changes.WritesAreEvents | migkit/engines/base.py:7207-7214 | deletes and upserts written row after row leave what each row says, rows being whole |
| Changes.TouchesOfTable | migkit/applyway.py:217-221 | the touches of a table's own changes, numbered by their place in the batch, are the batch's touches of that table |
| ApplyWay.HappeningsAreTouches | migkit/applyway.py:257-273 | the events worked out for a table - two for a key that moved - are its touches, one for one and in order |
| ApplyWay.TuplesTellPlaces | migkit/applyway.py:279-281 | two events have the same key tuple exactly where they touch the same row |
| ApplyWay.RowsByIsNet | migkit/applyway.py:280-297 | the first-touch and last-change maps give the net that merging change after change gives |
| ApplyWay.NamesOf | migkit/applyway.py:242-250 | the names are those of every write's key and values |
| ApplyWay.CollectRows | migkit/applyway.py:283-297 | one row a key, in order of first touch, numbered by the first touch and taken from the last change |
| Refusals.CollapseTable | migkit/applyway.py:227-298 | a table's net, or just what is wrong first with its changes, written out |
| Refusals.TroubleIsWhy | migkit/applyway.py:237-279 | a table is refused for the first thing wrong of eight, each written out over its changes, and taken exactly where none is |
| Plans.SplitTables | migkit/applyway.py:207-216 | all three ways of splitting give the same split: each table in the order it first comes with its changes' places, ascending |
| Plans.SortOnce | migkit/applyway.py:213-216 | the one pass that sorts every change gives that split |
| Plans.Collapse | migkit/applyway.py:202-224 | every table taken, nothing wrong with any, is its part of the batch's net; or the reason of the first table something is wrong with, nothing with those before it |
| Plans.MergedIsFirstTouchOrder | migkit/applyway.py:159-162 | merging the tables by number is exactly the batch's first-touch order, no place twice and numbers strictly increasing |
| Plans.BoundRows | migkit/applyway.py:157 | a bound table's rows are its changes' touches in order; None exactly where a change cannot be read |
| Plans.AssembledIsPlan | migkit/applyway.py:157-169 | the bound rows with the tables merged, or grouped into runs, make a plan of the batch |
| Plans.PlanOf | migkit/applyway.py:147-169 | a plan of the batch, nothing wrong with any loose table and no write to one adding to a value, keeping one or holding a placeholder; or the first refused table's reason; or raised at a bound change that cannot be read |
| Plans.DeletesFirst | migkit/applyway.py:163-168 | every run is of one kind, and no delete comes after an upsert |
| PlanMeaning.PlanIsInOrder | migkit/applyway.py:171-194 | writing the plan's rows leaves any store exactly as applying the changes in order would, for every batch and every store whose rows the writes carry whole |
| PlanMeaning.BoundThenLoose | migkit/engines/base.py:6814-6831 | all the bound tables' changes and then all the others' leave what the batch in its own order leaves |
| PlanMeaning.WritePlan | migkit/applyway.py:177-194 | writing the runs one after another writes the plan's rows in order |
| PlanMeaning.ApplyRun | migkit/engines/base.py:7207-7214 | a run is its rows written one after another |
| PlanMeaning.PartialRowsAreNotKept | migkit/engines/base.py:7307-7318 | with rows that are not whole it fails: a delete and an insert of fewer columns keep, collapsed, a column the changes in order drop |
| PartialRows.OthersAreBrought | migkit/engines/base.py:7319-7344 | applied in order, the columns a table's writes do not carry are those of the row a key's moves bring it from, none where it came to be in the batch |
| PartialRows.PlanIsInOrderExactly | migkit/applyway.py:171-194 | for any store, the plan leaves what the changes in order leave exactly where, at each place last upserted, the columns not carried are the same in the row found there and in the row brought there |
| PartialRows.PlanTwiceIsOnce | migkit/applyway.py:177-194 | a plan written again changes nothing, rows carried whole or not |
| PartialRows.TakenWritesHaveColumns | migkit/applyway.py:242-250 | the writes to a table of a batch taken as columns carry the same columns, as these ask |
| RowsWay.FoldIsNet | migkit/engines/base.py:7307-7318 | merging later values over earlier gives the net where a table's writes carry the same columns, none adding to a value or keeping one |
| RowsWay.AdditionsAreRefused | migkit/canon.py:303-324 | two additions to one counter: the columns refuse them, the rows way writes their sum, and the last of them alone would be written as columns |
| RowsWay.MergedLandsExactly | migkit/canon.py:303-324 | two values merged leave a number as one after the other would exactly unless the first adds to it and the second keeps it |
| RowsWay.ColumnsAreRows | migkit/engines/base.py:7291-7345 | for a batch the columns take, the rows way's collapse is the columns' rows merged |
| RowsWay.GroupsAreRuns | migkit/engines/base.py:6798-6812 | the plan's runs, each kind's sorted by first row, are the rows way's shapes in the order it writes them |
| RowsWay.PlanIsTheRowsWay | migkit/applyway.py:171-175 | the columns way writes the rows way's rows, one for one and in the same order, bound tables or none |
| Bisection.FaithfulIsTruthful | bench/proof.py:155-158 | where equal hashes mean equal rows, two sides' digests of a range agree exactly where no key in it differs |
| Bisection.Visit | bench/proof.py:154-162 | one range digested: passed where equal, found where it is a leaf, else to be halved; what is found so far stays exact |
| Bisection.FindRanges | bench/proof.py:152-164 | the stack loop ends with ranges ascending and apart, each holding a differing key and no more rows a side than a leaf may, or one key, and every differing key in one; two digests a range asked |
| Bisection.HalvesExactly | bench/proof.py:155-162 | a range is halved exactly where its digests differ, it has more than one key and a side more rows than a leaf may |
| Bisection.AskedIsBounded | bench/proof.py:153-164 | with D differing keys in a range of N at most 1 + 2 D ceil(log2 N) ranges are digested |
| Bisection.LimitIs | bench/proof.py:153-164 | that bound written out, two digests a range |
| Bisection.CountFound | bench/proof.py:165-177 | the differences of the found ranges add up to the whole difference, kind by kind |
| Bisection.CompareRange | bench/proof.py:152-180 | missing, changed and extra keys counted exactly, within the bound on digests |
| Bisection.Compare | bench/proof.py:127-180 | the same over both sides' whole key range; nothing to compare exactly where both are empty |
| AgentControl.AdmittedMeansSettled | migkit/agent_control.py:930-1007 | a write is admitted only under the ratified plan, with no operation uncertain and its own never committed |
| AgentProgress.AdmissionExactly | migkit/agent_control.py:930-1080 | a request is a duplicate, may write, may read or is refused, each exactly where its conditions, written out, hold |
| AgentProgress.WriteSays | migkit/agent_control.py:1401-1421 | a unit's write is there once more, not there or on its way, and nothing else changes |
| AgentProgress.ExecuteCommits | migkit/agent_control.py:1355-1533 | an admitted execute whose writes land and which nothing stops ends committed with the request's fingerprint, every unit checkpointed and each that was not landed once more |
| AgentProgress.AskedAgainIsNothing | migkit/agent_control.py:955-970 | asked again it is a duplicate and changes nothing |
| AgentProgress.RaisedIsUnknown | migkit/agent_control.py:1404-1421 | a write that raises leaves the operation unknown, the units before it checkpointed and no other |
| AgentProgress.ElseNothing | migkit/agent_control.py:1248-1354 | an execute not let through, or outside its scope, changes nothing |
| AgentProgress.PlanLeaves | migkit/agent_control.py:1086-1219 | a blocked plan refuses the contract; another leaves the plan ratified before, or its own, and its operation committed |
| AgentProgress.StepKeepsContract | migkit/agent_control.py:930-1667 | a refused contract stays refused and no call changes anything; a ratified plan stays the plan |
| AgentProgress.RunsKeepContract | migkit/agent_control.py:930-1667 | and so over every run |
| AgentProgress.ReconcileLeaves | migkit/agent_control.py:1599-1667 | a reconcile not stopped leaves each uncertain operation as its probe says, or as it was, and what the probes say landed checkpointed |
| AgentControl.SettledIsClear | migkit/agent_control.py:982-996 | while nothing is uncertain every landed unit is checkpointed and no write is in flight |
| AgentControl.BeginKeeps | migkit/agent_control.py:1356-1365 | marking an admitted operation begun keeps the state sound |
| AgentControl.WriteKeeps | migkit/agent_control.py:1401-1421 | however a unit's write ends, the state stays sound |
| AgentControl.CheckpointKeeps | migkit/agent_control.py:1439-1447 | a landed unit checkpointed keeps it sound, with nothing landed left unsaid |
| AgentControl.RunEnds | migkit/agent_control.py:1384-1462 | a run that went through every unit left every unit checkpointed |
| AgentControl.ExecuteKeeps | migkit/agent_control.py:1248-1533 | an execute stopped between any two durable writes keeps it sound |
| AgentControl.PlanKeepsExactly | migkit/agent_control.py:1182-1219 | a plan keeps it sound exactly where it does not overwrite an uncertain operation with work no checkpoint names |
| AgentControl.ReconcileKeepsExactly | migkit/agent_control.py:1599-1667 | a reconcile with truthful probes keeps it sound exactly where it is not stopped between settling an operation and saving what it landed |
| AgentControl.StepKeepsExactly | migkit/agent_control.py:930-1667 | every call and every write arriving late keeps it sound exactly where it is harmless |
| AgentControl.RunsLandOnce | migkit/agent_control.py:1248-1667 | over every run no unit takes effect twice, and a committed execute has each of its units landed exactly once, given no harmful stop |
| AgentControl.LostUnitLandsTwice | migkit/agent_control.py:1385-1402 | a landed unit no checkpoint names is written again by the next execute admitted for it |
| AgentControl.CutReconcileLandsTwice | migkit/agent_control.py:1639-1667 | a run, stopped after an operation is settled and before the checkpoints are saved, that lands a unit twice |
| AgentLosses.LostCanLandTwice | migkit/agent_control.py:1385-1402 | wherever a landed unit is named by no checkpoint and no uncertain operation, a plan, a whole reconcile and an execute, none of them stopped to harm, land it once more |
| AgentLosses.HarmlessExactly | migkit/agent_control.py:930-1667 | a call is harmless exactly where no unit lands twice however harmlessly the run goes on |
| AgentLosses.RunsLandOnceExactly | migkit/agent_control.py:930-1667 | a run has no harmful call exactly where, from each of its worlds, going on harmlessly lands no unit twice |
| AgentLosses.PlanOverExecuteLandsTwice | migkit/agent_control.py:1211-1219 | a plan under the id of an execute stopped after its write, and then an execute: the unit lands twice |
| AgentControl.Controller.OwnAs | migkit/attempts.py:409-414 | an operation's state is replaced and the rest of it kept |
| AgentControl.Controller.Write | migkit/agent_control.py:1401-1403 | a unit's write lands, raises having landed or not, or raises with its effect still on the way |
| AgentControl.Controller.Run | migkit/agent_control.py:1384-1462 | unit by unit to the world the steps say, stopped after any number of writes |
| AgentControl.Controller.Execute | migkit/agent_control.py:1248-1533 | one execute as the step says: begun, run, and committed only at its end |
| AgentControl.Controller.MakePlan | migkit/agent_control.py:1086-1219 | one plan as the step says: refused, or saved in the contract and then owned as committed |
| AgentControl.Controller.Reconcile | migkit/agent_control.py:1562-1667 | one reconcile as the step says: each operation settled in turn, the checkpoints saved after them all |
| Scope.Check | migkit/agent_control.py:400-437 | contained exactly where nothing of eleven kinds stands against it, and otherwise one that does |
| Scope.ContainsExactly | migkit/agent_control.py:400-437 | contained exactly where every condition, written out, holds - names, databases, tables, columns, filters, rows, DDL and hosts |
| Scope.ContainedReachesNoMore | migkit/agent_control.py:400-437 | a contract reaches every database, table, column and filtered row that a request it contains reaches, and allows its row limit, its DDL and its hosts |
| Scope.ContainsItselfExactly | migkit/agent_control.py:402-413 | a scope contains itself exactly where its names are in order and its column entries are of its own tables |
| Scope.ContainsOnwardExactly | migkit/agent_control.py:422-427 | containment carries onward exactly where no filter of the outer scope is altered, so always where filters name own tables |
| Scope.StrayFilterIsNotContained | migkit/agent_control.py:425-427 | a filter on a table the request does not name breaks transitivity |
| Audit.Verify | migkit/audit.py:189-247 | the verdict, the number of entries and the torn length are those of the lines read from the first, one after another |
| Audit.ReadLine | migkit/audit.py:208-246 | one line's verdict against the hash to follow, the opening bound by the first hashed entry |
| Audit.Hashes | migkit/audit.py:166-186 | each whole line's hash, in order, none where it has none |
| Audit.VerifiesExactly | migkit/audit.py:189-247 | a record verifies exactly where its chain begins at some entry or none: before it no hash, in it each entry's own hash and its predecessor's name, the first binding the lines before it; all from there on are counted |
| Audit.BreakSays | migkit/audit.py:208-246 | a break names the first entry out of order, how many were chained before it, and what is wrong with it |
| Audit.HashPinsEntry | migkit/audit.py:221-224 | two entries that verify under one hash are one entry |
| Audit.SameHeadSameRecord | migkit/audit.py:225-245 | two verified records equally long that end in one hash agree on every entry, those before the chain included |
| Audit.SameHashSamePrefix | migkit/audit.py:189-247 | two records that pass and carry one hash at entry N agree on entries 1 to N |
| AuditAppend.LastLine | migkit/audit.py:51-64 | read back a block at a time, the last line is found however long it is |
| AuditAppend.ChainStateStands | migkit/audit.py:67-91 | where a verified record's chain stands is what the verifier would follow, unless a piece split off at a carriage return carries a hash |
| AuditAppend.LineFollows | migkit/audit.py:131-143 | a line written where the chain stands verifies exactly where the entry carries no hash of its own |
| AuditAppend.AppendVerifiesExactly | migkit/audit.py:94-151 | appending to a record whose whole lines verify, torn or not, gives one that verifies exactly where the entry carries no hash and no stray hash stands before the chain |
| AuditAppend.AppendAdds | migkit/audit.py:94-151 | such an append keeps the whole lines, leaves nothing torn, adds one entry - two where bytes were torn off - and returns the new head |
| AuditAppend.AppendWrites | migkit/audit.py:112-151 | the line holds the entry's own names and values, the stamp's else, the hash it follows and the head returned; torn bytes are said first, their number and hash |
| AuditAppend.StrayHashBreaksAppends | migkit/audit.py:84-91 | an entry without a hash that has an object with one between two carriage returns: its record verifies, and with any append to it does not |
| AuditAppend.NoReturnNoStray | migkit/audit.py:84-91 | a record without a carriage return has no stray hash |
| AuditAppend.EveryRunVerifies | migkit/audit.py:112-151 | over every run of appends from an empty record, each whole or stopped at any byte, the record verifies and every whole line is chained |
| AuditAppend.WritingKeepsLines | migkit/audit.py:115-147 | no append, whole or cut at any byte, takes a whole line out or changes one |
| AuditAppend.RecordFile.StateOfChain | migkit/audit.py:67-91 | the hash to follow, and the bytes the first hashed entry is to bind |
| AuditAppend.RecordFile.Append | migkit/audit.py:94-151 | the file truncated and appended to in place as specified, and its new head |
| Anchor.Position | migkit/anchor.py:371-382 | the last entry carrying a hash, held by the record; none exactly where no line has one or the record breaks |
| Anchor.ReadBack | migkit/anchor.py:647-674 | nothing is found wrong exactly where the object has one version at most, no marker, and what it holds is named, locked and signed |
| Anchor.IntactExactly | migkit/anchor.py:647-674 | intact is one version at most, no marker, the checkpoint it is named by, locked, not ended and signed |
| Anchor.HoldTo | migkit/anchor.py:609-687 | checked, held, latest and since as counted, no problem exactly where the record verifies and every object passes, raised exactly for a checkpoint numbered 0 held to a record of none |
| Anchor.StandsExactly | migkit/anchor.py:675-684 | the record stands the same exactly where it holds the checkpoint, and short exactly where it has fewer entries |
| Anchor.CheckedExactly | migkit/anchor.py:609-687 | nothing is found wrong exactly where the record verifies, every object is intact and the record holds its checkpoint; all are held then |
| Anchor.CheckpointPins | migkit/anchor.py:675-681 | a checkpoint taken of one verified record and held by another pins every entry up to it |
| Anchor.PassingPins | migkit/anchor.py:609-687 | where the check finds no problem the record agrees with every record a checkpoint was taken of, up to it |
| Anchor.NeverAFalseAlarm | migkit/anchor.py:675-684 | a checkpoint held once is held after any further appends, each whole or stopped at any byte |
| Anchor.HonestRecordPasses | migkit/anchor.py:609-687 | checkpoints held at any time, their objects intact, and the record written on since: where it verifies the check finds nothing wrong and holds them all |
| Graphs.SomeReady | migkit/archive.py:434-438 | where nothing waits in a circle whatever is left has one that waits for nothing left |
| Graphs.OrderedExactly | migkit/action_compiler.py:918-940 | there is an order, each after all it waits for, exactly where nothing waits in a circle |
| RemovalOrder.Order | migkit/archive.py:428-439 | a permutation of the tables, whatever the keys: next the first by name of those nothing left names, of all left where there is none |
| RemovalOrder.ChildrenLeaveFirst | migkit/archive.py:428-439 | where keys run in no circle every child comes before its parent |
| RemovalOrder.LeavesExactly | migkit/archive.py:428-439 | and exactly there |
| RemovalOrder.ParentsReturnFirst | migkit/archive.py:548-549 | the order reversed puts every parent before its children |
| ArchiveSteps.NothingLost | migkit/archive.py:314-517 | copying and removing stopped anywhere, the source written to between batches: each row last written is on the source or in the archive as it is, and no archived row is overwritten |
| ArchiveSteps.LeavingIsSaid | migkit/archive.py:480-496 | stopped anywhere, no row is off the source before the ledger says that it is to go |
| ArchiveSteps.LateTakeKeepsExactly | migkit/archive.py:469-496 | rows removed after they were read again lose nothing exactly where none of them was written in between |
| ArchiveSteps.PutBackKeepsExactly | migkit/archive.py:553-568 | putting rows back loses one exactly where one was written anew under a removed key |
| ArchiveRestore.OwedIsLines | migkit/archive.py:524-529 | the lines kept of a table name exactly the keys of it still to put back |
| ArchiveRestore.ResumesExactly | migkit/archive.py:524-568 | a restore stopped after some lines and run again gives back what one run would exactly where no row it drops is off the source - so wherever it stops between tables |
| ArchiveRestore.GivesBackExactly | migkit/archive.py:480-506 | whatever was removed, a whole restore gives the source back exactly where no stopped batch had a row leave |
| Archive.CopiesRun | migkit/archive.py:334-362 | a whole copy adds just the picked rows that were not there, as the source has them |
| Archive.CopiesLeave | migkit/archive.py:334-362 | after a whole copy each row picked is in the archive, as it held it or else as the source has it, and nothing more |
| Archive.TakesOfLeave | migkit/archive.py:464-509 | after a whole removal just the rows picked that the archive holds alike are off the source |
| Archive.MovedOver | migkit/archive.py:314-517 | a row picked, copied and removed, the archive having held nothing else for it, is in the archive as the source had it and off the source |
| Archive.RoundTrip | migkit/archive.py:442-571 | an uninterrupted removal and all it removed put back is the source as it was, and the archive holds all that is owed |
| Archive.AllPutBack | migkit/archive.py:524-571 | every table's lines put back is all that is owed, and nothing is owed after |
| Archive.ReadLedger | migkit/archive.py:524-529 | each table with its removed lines since it was last restored |
| Archive.Archiver.CopyRows | migkit/archive.py:336-368 | new rows added, the rows held otherwise named - just those - and none overwritten; every other row picked is in the archive as the source has it |
| Archive.Archiver.TakeBatch | migkit/archive.py:469-509 | only rows the archive holds as the source has them leave, their keys in the ledger first, and they are counted |
| Archive.Archiver.RemoveRows | migkit/archive.py:458-517 | every batch of every table in the removal order; just the rows picked that the archive holds alike leave, and they are counted |
| Archive.Archiver.PutTable | migkit/archive.py:553-569 | a table's lines put back in order, stopped at the first the archive holds not every row of |
| Archive.Archiver.RestoreRows | migkit/archive.py:520-571 | all that is owed put back, parents first, exactly where the archive still holds it; then nothing is owed |
| Causal.Count | migkit/action_compiler.py:920-927 | each node's in-degree and neighbours, names given twice counted twice |
| Causal.Free | migkit/action_compiler.py:929 | the queue begins with the nodes that wait for none |
| Causal.Pass | migkit/action_compiler.py:935-938 | taking a node's neighbours one by one keeps every count and queues each as its last wait ends |
| Causal.IsAcyclic | migkit/action_compiler.py:918-940 | true exactly where no node waits, through however many others, for itself |
| CausalPlan.Establish | migkit/action_compiler.py:893-899 | each fact with just the actions that establish it |
| CausalPlan.Build | migkit/action_compiler.py:888-915 | each action with just those that establish something it needs, sorted and each once, and each need nothing meets, in order |
| CausalPlan.UnmetInOrder | migkit/action_compiler.py:901-912 | what is unmet of needs one after another is what is unmet of each, in their order |
| CausalPlan.Established | migkit/action_compiler.py:901-912 | each prerequisite of an executable order is a fact or established by an earlier action |
| CausalPlan.AdmittedExactly | migkit/action_compiler.py:888-940 | with distinct ids, acyclic with nothing unmet if and only if an order exists with every prerequisite established before, by all that establish it, or a fact to begin with |
| AckLattice.AdvanceReaches | migkit/ack_lattice.py:179-262 | an advance goes to the least positions in step at or past where it is asked, an acknowledgement only up to what is retained |
| AckLattice.PositionLattice.AdvanceRead | migkit/ack_lattice.py:179-188 | the read position moves up only; going back is an error where strict |
| AckLattice.PositionLattice.AdvanceRetained | migkit/ack_lattice.py:190-201 | the retained position moves up only, taking the read one with it |
| AckLattice.PositionLattice.AdvanceApplied | migkit/ack_lattice.py:205-216 | the applied position moves up only, taking the read one with it |
| AckLattice.PositionLattice.AdvanceProved | migkit/ack_lattice.py:218-231 | the proved position moves up only, taking the applied and the read ones with it |
| AckLattice.PositionLattice.AckSource | migkit/ack_lattice.py:249-262 | refused, nothing changed, past what is retained; else moves up only |
| Lsn.LsnReadsBack | migkit/ack_lattice.py:102-124 | a position written as two hexadecimal halves reads back, below zero too |
| Lsn.LsnsDiffer | migkit/ack_lattice.py:123-124 | no two positions are written alike |
| Lsn.HexIsWritten | migkit/ack_lattice.py:123-124 | a half has no leading zero, only digits and capital letters |
| AckPipeline.SpoolKeepsExactly | migkit/ack_lattice.py:400-416 | a spool keeps every retained record journaled exactly where it does not move, with nothing to flush, over a record neither read since the restart nor journaled |
| AckPipeline.StepKeeps | migkit/ack_lattice.py:394-445 | every proper step, crashes and restarts included, keeps it |
| AckPipeline.NoAckedRecordLost | migkit/ack_lattice.py:380-445 | over every proper run the positions are in step, each record the source was told of is in the journal, and is applied or reconstructed as it was read |
| AckPipeline.SpoolLosesExactly | migkit/ack_lattice.py:400-421 | once the source is told of all a spool retains, a record it was told of is in no journal exactly where the spool was such a one |
| AckPipeline.RunsLoseExactly | migkit/ack_lattice.py:380-445 | over any run that reads in turn, crashes and restarts anywhere, every spool is proper exactly where no record is ever so lost |
| AckPipeline.StaleSpoolLoses | migkit/ack_lattice.py:410-413 | a crash and then a spool of all that was read: the source is told of a record that is nowhere |
| AckPipeline.RunKeepsOrder | migkit/ack_lattice.py:394-442 | with no crash or restart, read in order, the journal and what waits after it are the records read, in order and each once; what is reconstructed is the journal's end past applied |
| AckPipeline.RunAscends | migkit/ack_lattice.py:394-445 | crashes and restarts anywhere, while each record is read past all that is held, journal and reconstruction are in order with none twice |
| AckPipeline.StepMoves | migkit/ack_lattice.py:394-431 | each position goes up to where a step says, or stays; a crash and a restart drop just what is in memory |
| AckPipeline.SpoolMoves | migkit/ack_lattice.py:400-416 | a spool retains up to the last record it flushed or, with none to flush, up to where it was told; applied, proved and acknowledged stay |
| AckPipeline.OutlivesRestart | migkit/ack_lattice.py:380-431 | what a spool, an acknowledgement, an apply or a proof leaves a crash and a restart go on from |
| AckPipeline.DurableAckPipeline.Spool | migkit/ack_lattice.py:400-416 | what is due moved from memory to the journal, the retained position after it, the positions saved |
| AckPipeline.DurableAckPipeline.Ack | migkit/ack_lattice.py:418-421 | acknowledged and saved, or refused past what is retained |
| AckPipeline.DurableAckPipeline.Reconstruct | migkit/ack_lattice.py:433-442 | the journaled records past applied, in order |
| AckPipeline.DurableAckPipeline.Crash | migkit/ack_lattice.py:444-445 | what is not spooled is gone, and nothing else |
| Text.PartsBackExactly | migkit/addresses.py:242-255 | names joined by commas, split and the empty dropped, come back exactly where none is empty or holds a comma |
| Percent.QuoteReadsBack | migkit/addresses.py:403-406 | text quoted, whatever is kept safe and whatever follows it, reads back |
| Addresses.Hosts | migkit/addresses.py:130-143 | the servers in order, refused exactly where a port is no number |
| Addresses.ServerReadsBack | migkit/addresses.py:466-476 | a host, bracketed where it has a colon, and its port where it is not the engine's own read back |
| Addresses.BadPortExactly | migkit/addresses.py:139-140 | a port is refused exactly where it is not empty and no number |
| Addresses.ListReadsBack | migkit/addresses.py:130-143 | servers listed one after another read back in order, each its host and its port up to the default |
| Addresses.AuthorityIs | migkit/addresses.py:261-277 | user, reference and server are told from the path wherever the slashes are |
| Addresses.PathReadsBack | migkit/addresses.py:477-486 | what to connect to and the databases read back from the path |
| Addresses.AddressReadsBack | migkit/addresses.py:370-490 | an address reads back the user, the reference, the host, the port up to the default and what it connects to, the databases less the empty and cut at their commas |
| Addresses.SideReadsBackExactly | migkit/addresses.py:237-255 | and so the whole side exactly where no database is empty or holds a comma, none at all where the engine reads none |
| Addresses.RawReferenceReads | migkit/addresses.py:258-277 | a reference written unquoted, slashes and all, reads the same |
| CopyText.ReplacesAreOnePass | bench/seed.py:163-165 | the four replacements in a row escape each character once |
| CopyText.CopyRows | bench/seed.py:153-167 | fields apart by tabs, a line a row, each field escaped or NULL |
| CopyText.NeverNull | bench/seed.py:160-165 | no text is written as NULL is |
| CopyText.RowReads | bench/seed.py:158-166 | a row written reads back by COPY's rules, and what follows it is left |
| CopyText.CopyReadsBackExactly | bench/seed.py:153-167 | what is written reads back exactly where every row has a field |
| NetMerge.Collapse | migkit/apply_contract.py:1318-1328 | one entry a key at the place of its first change, what its last change leaves |
| NetMerge.ApplyInOrder | migkit/apply_contract.py:1258-1292 | the rows each change in commit order leaves, one or every hit dropped or updated |
| NetMerge.AppliedSays | migkit/apply_contract.py:1258-1292 | by the key, or by what is matched where there is none: an insert comes last, an update overlays every hit or the first, a delete takes every hit off or the first, and all else stays in its place |
| NetMerge.MergeByKey | migkit/apply_contract.py:1316-1348 | each key's last change put into the rows, by overlaying where the target keeps keys unique, else appended |
| NetMerge.AllAppliedAreEvents | migkit/apply_contract.py:1262-1290 | commit order on rows of their own keys is each change's event at its key |
| NetMerge.AllMergedAreEvents | migkit/apply_contract.py:1329-1345 | the merge on rows of their own keys is each entry's event at its key |
| NetMerge.MergeIsCommitOrder | migkit/apply_contract.py:1257-1348 | where the target keeps keys unique the merge has the rows commit order has, in some order |
| NetMerge.UnkeptMergesExactly | migkit/apply_contract.py:1346-1348 | where it does not, exactly where no row is put over one that was there |
| NetMergeGate.AdmittedMergeIsCommitOrder | migkit/apply_contract.py:1071-1154 | a batch net merge with nothing violated has the rows commit order has |
| NetMergeGate.ViolationsExactly | migkit/apply_contract.py:1071-1148 | each of six violations is found exactly where its conditions, written out, hold |
| NetMergeGate.NothingViolatedExactly | migkit/apply_contract.py:1071-1148 | and none exactly for keyed batches without watched steps, seen whole, on a target that keeps keys unique where the mode needs it |
| NetMergeGate.NativeMergesExactly | migkit/apply_contract.py:1101-1121 | the native contract, which asks nothing of the target, has them exactly where the target keeps keys unique or no row is put over another |
| NetMergeGate.NativeMergeDoubles | migkit/apply_contract.py:1346-1348 | one update under it, nothing violated, that leaves the row there twice |
| NetMergeGate.EachTableByItself | migkit/apply_contract.py:1262-1290 | commit order over all tables is commit order on each |
| Minimizer.DropKeys | migkit/ai_proof_loop.py:613-620 | the key pass as specified, each key tried once and in order |
| Minimizer.DropPassFails | migkit/ai_proof_loop.py:613-620 | what the key pass leaves still fails, is part of the input and is not empty |
| Minimizer.DropPassMinimal | migkit/ai_proof_loop.py:613-620 | where failing is kept by adding keys, no tried key left can be dropped, unless one key is left |
| Minimizer.DropPassCanStop | migkit/ai_proof_loop.py:613-620 | where it is not, a key that could go can be left |
| Minimizer.ShrinkNumber | migkit/ai_proof_loop.py:624-645 | ends, fails still, further from 0 exactly where it fails on false and on 1 or -1 but not on 0; a truth value becomes the first of 0, 1 and -1 that fails; nothing it tries on a whole number is left to try |
| Minimizer.FalseCanBecomeOne | migkit/ai_proof_loop.py:626-635 | a failing input whose false becomes 1 |
| Minimizer.ShrinkText | migkit/ai_proof_loop.py:647-668 | ends, fails still, on a beginning of the text, and nothing it tries is left to try |
| Minimizer.ShrinkList | migkit/ai_proof_loop.py:670-685 | ends, fails still, on a beginning of the list, and nothing it tries is left to try |
| Minimizer.Minimize | migkit/ai_proof_loop.py:596-687 | an input that does not fail is left; one that does fails still, on the keys the first pass leaves, nothing larger, and its last value has nothing left to try |

## Left out

- PartialRows.PlanIsInOrderExactly: asks that a table's writes carry the same
  columns, as every batch taken as columns has them; writes of other shapes to
  the tables bound by keys, which are written change by change, it leaves out.
- RowsWay.PlanIsTheRowsWay: values that add to a column or keep it are left to
  the rows way alone, which the columns way refuses. Merging them is modelled;
  an addition to a text or to bytes, which raises, leaves the addition.
- PlanMeaning.ApplyRun: a run is taken to write its rows one after another; the
  engines' bulk statements, and the statements rows are cut into, are not
  modelled.
- Plans.PlanOf: which tables are bound by keys is given as a set; how an engine
  finds them and names its lanes is not modelled, nor the choice of a way by
  measured pace.
- Bisection.Compare: the budget of time and a rule on the rows are left out, and
  the walk of a found range is taken to name exactly the keys that differ in it.
- AgentControl.Controller.OwnAs: the other fields an operation is owned with,
  such as times and verdicts, are left out, and it is in the ledger already.
- AgentControl.RunsLandOnce: probes are truthful and durable writes whole; leases, heartbeats,
  forecasts, quarantined text and the ledger's own state `running`, which the
  controller never stores, are left out. A probe that settles nothing need say
  nothing, and the operations to reconcile come in any order.
- AgentControl.Controller.Write: the effect of a write on the target is one of
  four outcomes given from outside.
- Scope.Check: whether identifiers are in order and filters harmless is a given
  predicate; which table is gone through first is not fixed.
- Audit.SameHashSamePrefix: the hash and the canonical text are taken to collide
  nowhere, and no hash to be empty.
- AuditAppend.RecordFile.Append: the lock on the file, the order of names in an
  entry and the sync to disk are left out.
- Anchor.HoldTo: what the bucket answers is given object by object; signatures,
  retention dates and requests are yes or no.
- ArchiveSteps.NothingLost: rows are compared as the texts of their columns, one
  digest a row; the source is not written between a batch's reading and its
  removal, and `ArchiveSteps.LateTakeKeepsExactly` says what that is for.
- Archive.Archiver.CopyRows: what is written reads back as written, so the
  refusal for rows read back otherwise never comes up.
- Archive.Archiver.RemoveRows: approvals, the source's own answer and the rule's
  text are left out; the batches are given.
- AckPipeline.NoAckedRecordLost: reads come in turn from where a restart left
  off, and spools are proper; both are what `AckPipeline.Proper` says.
- Lsn.LsnReadsBack: a low half of more than 32 bits, prefixes such as `0x`,
  underscores and texts without a slash are not read.
- Addresses.AddressReadsBack: hosts hold none of `/ ? @ , [ ] %`; lists of
  servers, options in the query, the engines without a server and the table of
  schemes are left out, and text is its bytes.
- CopyText.CopyReadsBackExactly: an end-of-data marker is refused by the reader
  rather than ending it, which is never reached.
- NetMerge.MergeIsCommitOrder: keys start unique, inserts are new, updates hit,
  and changes carry their key and the whole row without moving the key.
- NetMergeGate.AdmittedMergeIsCommitOrder: the modes that copy the truth, costs and
  badges are left out.
- Minimizer.Minimize: whether an input fails is a function of it; the sandbox
  and the comparison of effects are not modelled.
- Object storage, signing and retries, DNS and query options, decision ladders as
  such, telemetry, masking, sessions and leases are not part of this model.
