// What an agent's contract lets a request reach (`migkit/agent_control.py`).
module Scope {
  datatype Scope = Scope(databases: set<string>, tables: set<string>, columns: map<string, set<string>>,
                         filters: map<string, string>, maxRows: int, ddl: bool, source: string, target: string)

  datatype Why = BadNames | MoreDatabases | MoreTables | ColumnsOfNoTable(t: string) | MoreColumns(t: string)
               | ColumnsDropped(t: string) | FilterDropped(t: string) | FilterAltered(t: string) | MoreRows | MoreDdl | OtherHosts

  // Whether every identifier is one, and no filter's text could do more than
  // filter.
  type Names = Scope -> bool

  predicate Valid(names: Names, s: Scope) { s.databases != {} && s.tables != {} && s.maxRows > 0 && names(s) }

  // All there is to say against a request.
  ghost predicate Against(names: Names, has: Scope, asks: Scope, why: Why) {
    match why
    case BadNames => !Valid(names, asks)
    case MoreDatabases => !(asks.databases <= has.databases)
    case MoreTables => !(asks.tables <= has.tables)
    case ColumnsOfNoTable(t) => t in asks.columns && t !in has.tables
    case MoreColumns(t) => t in asks.columns && t in has.columns && !(asks.columns[t] <= has.columns[t])
    case ColumnsDropped(t) => t in has.columns && t in asks.tables && t !in asks.columns
    case FilterDropped(t) => t in has.filters && t in asks.tables && (t !in asks.filters || asks.filters[t] != has.filters[t])
    case FilterAltered(t) => t in asks.filters && t in has.filters && asks.filters[t] != has.filters[t]
    case MoreRows => asks.maxRows > has.maxRows
    case MoreDdl => asks.ddl && !has.ddl
    case OtherHosts => asks.source != has.source || asks.target != has.target
  }

  ghost predicate Contains(names: Names, has: Scope, asks: Scope) { forall why :: !Against(names, has, asks, why) }

  method ColumnsAllowed(names: Names, has: Scope, asks: Scope) returns (ok: bool, why: Why)
    ensures ok ==> forall t :: !Against(names, has, asks, ColumnsOfNoTable(t)) && !Against(names, has, asks, MoreColumns(t))
    ensures !ok ==> Against(names, has, asks, why)
  {
    var left := asks.columns.Keys;
    while left != {}
      invariant left <= asks.columns.Keys
      invariant forall t :: t in asks.columns && t !in left ==> t in has.tables && (t in has.columns ==> asks.columns[t] <= has.columns[t])
      decreases |left|
    {
      var t :| t in left;
      if t !in has.tables {
        return false, ColumnsOfNoTable(t);
      }
      if t in has.columns && !(asks.columns[t] <= has.columns[t]) {
        return false, MoreColumns(t);
      }
      left := left - {t};
    }
    return true, BadNames;
  }

  method ColumnsKept(names: Names, has: Scope, asks: Scope) returns (ok: bool, why: Why)
    ensures ok ==> forall t :: !Against(names, has, asks, ColumnsDropped(t))
    ensures !ok ==> Against(names, has, asks, why)
  {
    var left := has.columns.Keys;
    while left != {}
      invariant left <= has.columns.Keys
      invariant forall t :: t in has.columns && t !in left ==> (t in asks.tables ==> t in asks.columns)
      decreases |left|
    {
      var t :| t in left;
      if t in asks.tables && t !in asks.columns {
        return false, ColumnsDropped(t);
      }
      left := left - {t};
    }
    return true, BadNames;
  }

  method FiltersKept(names: Names, has: Scope, asks: Scope) returns (ok: bool, why: Why)
    ensures ok ==> forall t :: !Against(names, has, asks, FilterDropped(t))
    ensures !ok ==> Against(names, has, asks, why)
  {
    var left := has.filters.Keys;
    while left != {}
      invariant left <= has.filters.Keys
      invariant forall t :: t in has.filters && t !in left ==> (t in asks.tables ==> t in asks.filters && asks.filters[t] == has.filters[t])
      decreases |left|
    {
      var t :| t in left;
      if t in asks.tables && (t !in asks.filters || asks.filters[t] != has.filters[t]) {
        return false, FilterDropped(t);
      }
      left := left - {t};
    }
    return true, BadNames;
  }

  method FiltersUnaltered(names: Names, has: Scope, asks: Scope) returns (ok: bool, why: Why)
    ensures ok ==> forall t :: !Against(names, has, asks, FilterAltered(t))
    ensures !ok ==> Against(names, has, asks, why)
  {
    var left := asks.filters.Keys;
    while left != {}
      invariant left <= asks.filters.Keys
      invariant forall t :: t in asks.filters && t !in left ==> (t in has.filters ==> has.filters[t] == asks.filters[t])
      decreases |left|
    {
      var t :| t in left;
      if t in has.filters && has.filters[t] != asks.filters[t] {
        return false, FilterAltered(t);
      }
      left := left - {t};
    }
    return true, BadNames;
  }

  // The check, one table after another: a reason against it where there is
  // one, and where it finds none there is none.
  method Check(names: Names, has: Scope, asks: Scope) returns (ok: bool, why: Why)
    ensures ok ==> Contains(names, has, asks)
    ensures !ok ==> Against(names, has, asks, why)
  {
    if !Valid(names, asks) {
      return false, BadNames;
    }
    if !(asks.databases <= has.databases) {
      return false, MoreDatabases;
    }
    if !(asks.tables <= has.tables) {
      return false, MoreTables;
    }
    ok, why := ColumnsAllowed(names, has, asks);
    if !ok {
      return;
    }
    ok, why := ColumnsKept(names, has, asks);
    if !ok {
      return;
    }
    ok, why := FiltersKept(names, has, asks);
    if !ok {
      return;
    }
    ok, why := FiltersUnaltered(names, has, asks);
    if !ok {
      return;
    }
    if asks.maxRows > has.maxRows {
      return false, MoreRows;
    }
    if asks.ddl && !has.ddl {
      return false, MoreDdl;
    }
    if asks.source != has.source || asks.target != has.target {
      return false, OtherHosts;
    }
    return true, BadNames;
  }

  // What a contract holds a request to, all of it and nothing else.
  lemma {:induction false} ContainsExactly(names: Names, has: Scope, asks: Scope)
    ensures Contains(names, has, asks) <==>
            && asks.databases != {} && asks.tables != {} && asks.maxRows > 0 && names(asks)
            && asks.databases <= has.databases && asks.tables <= has.tables
            && (forall t :: t in asks.columns ==> t in has.tables)
            && (forall t :: t in asks.columns && t in has.columns ==> asks.columns[t] <= has.columns[t])
            && (forall t :: t in has.columns && t in asks.tables ==> t in asks.columns)
            && (forall t :: t in has.filters && t in asks.tables ==> t in asks.filters)
            && (forall t :: t in asks.filters && t in has.filters ==> asks.filters[t] == has.filters[t])
            && asks.maxRows <= has.maxRows && (asks.ddl ==> has.ddl) && asks.source == has.source && asks.target == has.target
  {
    if Contains(names, has, asks) {
      assert !Against(names, has, asks, BadNames) && !Against(names, has, asks, MoreDatabases);
      assert !Against(names, has, asks, MoreTables) && !Against(names, has, asks, MoreRows);
      assert !Against(names, has, asks, MoreDdl) && !Against(names, has, asks, OtherHosts);
      forall t ensures t in asks.columns ==> t in has.tables { assert !Against(names, has, asks, ColumnsOfNoTable(t)); }
      forall t | t in asks.columns && t in has.columns ensures asks.columns[t] <= has.columns[t] {
        assert !Against(names, has, asks, MoreColumns(t));
      }
      forall t | t in has.columns && t in asks.tables ensures t in asks.columns { assert !Against(names, has, asks, ColumnsDropped(t)); }
      forall t | t in has.filters && t in asks.tables ensures t in asks.filters { assert !Against(names, has, asks, FilterDropped(t)); }
      forall t | t in asks.filters && t in has.filters ensures asks.filters[t] == has.filters[t] {
        assert !Against(names, has, asks, FilterAltered(t));
      }
    }
  }

  // ---- What a scope reaches

  // The rows a filter's text lets through.
  type Passes = (string, string) -> bool

  datatype Thing = Database(d: string) | Table(t: string) | Column(t: string, c: string) | Row(t: string, r: string)

  predicate Reaches(passes: Passes, s: Scope, x: Thing) {
    match x
    case Database(d) => d in s.databases
    case Table(t) => t in s.tables
    case Column(t, c) => t in s.tables && (t in s.columns ==> c in s.columns[t])
    case Row(t, r) => t in s.tables && (t in s.filters ==> passes(s.filters[t], r))
  }

  // A contract reaches whatever a request it contains reaches.
  lemma {:induction false} ContainedReachesNoMore(names: Names, passes: Passes, has: Scope, asks: Scope, x: Thing)
    requires Contains(names, has, asks) && Reaches(passes, asks, x)
    ensures Reaches(passes, has, x)
    ensures asks.maxRows <= has.maxRows && (asks.ddl ==> has.ddl) && asks.source == has.source && asks.target == has.target
  {
    assert !Against(names, has, asks, MoreRows) && !Against(names, has, asks, MoreDdl) && !Against(names, has, asks, OtherHosts);
    assert !Against(names, has, asks, MoreDatabases) && !Against(names, has, asks, MoreTables);
    match x
    case Column(t, c) => assert !Against(names, has, asks, ColumnsDropped(t)) && !Against(names, has, asks, MoreColumns(t));
    case Row(t, r) => assert !Against(names, has, asks, FilterDropped(t));
    case _ =>
  }

  // A scope contains itself exactly where its names are in order and its
  // column entries are of its own tables.
  lemma {:induction false} ContainsItselfExactly(names: Names, s: Scope)
    ensures Contains(names, s, s) <==> Valid(names, s) && s.columns.Keys <= s.tables
  {
    if Contains(names, s, s) {
      assert !Against(names, s, s, BadNames);
      forall t | t in s.columns ensures t in s.tables {
        assert !Against(names, s, s, ColumnsOfNoTable(t));
      }
    }
  }

  // What is contained in a contained scope is contained exactly where it does
  // not alter a filter of the outer one - which only a filter on a table the
  // scopes between do not have can.
  lemma {:induction false} ContainsOnwardExactly(names: Names, a: Scope, b: Scope, c: Scope)
    requires Contains(names, a, b) && Contains(names, b, c)
    ensures Contains(names, a, c) <==> forall t :: t in c.filters && t in a.filters ==> c.filters[t] == a.filters[t]
    ensures c.filters.Keys <= c.tables ==> Contains(names, a, c)
  {
    forall why: Why | !why.FilterAltered? ensures !Against(names, a, c, why) {
      NotAgainstOnward(names, a, b, c, why);
    }
    if Contains(names, a, c) {
      forall t | t in c.filters && t in a.filters ensures c.filters[t] == a.filters[t] {
        assert !Against(names, a, c, FilterAltered(t));
      }
    }
    if c.filters.Keys <= c.tables {
      forall t | t in c.filters && t in a.filters ensures c.filters[t] == a.filters[t] {
        assert !Against(names, a, c, FilterDropped(t));
      }
    }
  }

  lemma {:induction false} NotAgainstOnward(names: Names, a: Scope, b: Scope, c: Scope, why: Why)
    requires Contains(names, a, b) && Contains(names, b, c) && !why.FilterAltered?
    ensures !Against(names, a, c, why)
  {
    assert !Against(names, a, b, why) && !Against(names, b, c, why);
    assert !Against(names, a, b, MoreTables) && !Against(names, b, c, MoreTables);
    match why
    case ColumnsOfNoTable(t) => assert !Against(names, b, c, ColumnsOfNoTable(t));
    case MoreColumns(t) =>
      assert !Against(names, b, c, ColumnsOfNoTable(t)) && !Against(names, a, b, ColumnsDropped(t));
    case ColumnsDropped(t) => assert !Against(names, a, b, ColumnsDropped(t)) && !Against(names, b, c, ColumnsDropped(t));
    case FilterDropped(t) => assert !Against(names, a, b, FilterDropped(t)) && !Against(names, b, c, FilterDropped(t));
    case _ =>
  }

  // Such a filter: on a table the inner scopes do not name.
  lemma {:induction false} StrayFilterIsNotContained(names: Names)
    requires forall s :: names(s)
    ensures var a := Scope({"d"}, {"t", "u"}, map[], map["t" := "x"], 1, false, "", "");
            var b := Scope({"d"}, {"u"}, map[], map[], 1, false, "", "");
            var c := Scope({"d"}, {"u"}, map[], map["t" := "y"], 1, false, "", "");
            Contains(names, a, b) && Contains(names, b, c) && !Contains(names, a, c)
  {
    var a := Scope({"d"}, {"t", "u"}, map[], map["t" := "x"], 1, false, "", "");
    var c := Scope({"d"}, {"u"}, map[], map["t" := "y"], 1, false, "", "");
    assert a.filters["t"] != c.filters["t"];
    assert Against(names, a, c, FilterAltered("t"));
  }
}
