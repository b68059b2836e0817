/** The Sequel adapter: the select list it compiles for a dataset (the `loader` dependency key is
    neither join-checked nor selected), its join check over `opts[:join]`, the rows of an
    included sub-datasource, and the column filter of `to_orm_object`. */
module SequelAdapter {
  import opened Values
  import opened Registry
  import opened JoinCheck
  import opened SelectCompiler
  import opened IncludedRows

  /** `ID_KEY`: the primary-key column. */
  const IdKey: string := "id"

  /** The dependency keys the computed-attribute branch skips. */
  const Skipped: set<string> := {LoaderKey}

  /** What the adapter reads of a dataset: its first source alias and its `opts[:join]` (None for
      a dataset without joins). */
  datatype Scope = Scope(firstSourceAlias: string, joins: Option<seq<SequelJoin>>)

  /** `primary_scope_table(scope)`. */
  function PrimaryScopeTable(scope: Scope): string {
    scope.firstSourceAlias
  }

  /** The join check as evidently intended: some join's alias, or else its table, is the
      attribute's name. */
  function Joined(scope: Scope): string -> bool {
    attName => scope.joins.Some? && FindSequelJoin(scope.joins.value, attName).Some?
  }

  /** `ensure_table_join!(scope, name, att)`, with the join list read as a list (see
      `JoinCheck.EnsureSequelJoinAsWritten` for the check as written). */
  function EnsureTableJoin(scope: Scope, table: string, attName: string): (r: Result<()>)
    ensures r.Ok? <==> Joined(scope)(attName)
    ensures r.Err? ==> r.error == NotJoined(table, attName)
  {
    EnsureSequelJoin(scope.joins, table, attName)
  }

  /** `get_select_values(scope)` over the primary scope table, skipping the `loader` key. */
  method GetSelectValues(attrs: seq<Attribute>, expose: seq<string>, scope: Scope) returns (r: Result<seq<string>>)
    ensures r == SelectList(attrs, expose, PrimaryScopeTable(scope), Skipped, Joined(scope))
    ensures r.Ok? ==> NoDup(r.value) && |r.value| >= 1 && r.value[0] == PrimaryScopeTable(scope) + "." + IdKey
    ensures r.Ok? <==> forall a :: a in attrs && a.name in expose && NeedsJoin(a, PrimaryScopeTable(scope), Skipped) ==>
      scope.joins.Some? && exists j :: j in scope.joins.value && SequelJoinName(j) == a.name
    ensures r.Err? ==> exists a, t :: a in attrs && a.name in expose && r.error == NotJoined(t, a.name)
  {
    r := Compile(attrs, expose, PrimaryScopeTable(scope), Skipped, Joined(scope));
    SelectListSpec(attrs, expose, PrimaryScopeTable(scope), Skipped, Joined(scope));
    SelectListMembers(attrs, expose, PrimaryScopeTable(scope), Skipped, Joined(scope));
    if r.Err? {
      SelectListError(attrs, expose, PrimaryScopeTable(scope), Skipped, Joined(scope));
    }
  }

  /** A computed attribute whose only dependencies are loaders compiles in any dataset, joined or
      not, and adds no column: the select list is just the id column. */
  lemma LoaderDependencyIsSkipped(name: string, loaders: seq<string>, scope: Scope)
    ensures SelectList([Attribute(name, Computed([Dependency(LoaderKey, loaders)]))], [name], PrimaryScopeTable(scope),
                       Skipped, Joined(scope)) == Ok([PrimaryScopeTable(scope) + ".id"])
  {
    var att := Attribute(name, Computed([Dependency(LoaderKey, loaders)]));
    var deps := [Dependency(LoaderKey, loaders)];
    assert TablesOf(deps) == [LoaderKey];
    assert DependencyColumns(deps, Skipped) == [] by {
      assert DependencyColumns(deps[1..], Skipped) == [];
    }
    assert Contribution(att, PrimaryScopeTable(scope), Skipped, Joined(scope)) == Ok([]);
    var acc := [PrimaryScopeTable(scope) + ".id"];
    assert AppendAll(acc, []) == acc;
    assert [att][1..] == [] && [att][0].name in [name];
    assert CompileFrom(acc, [att], [name], PrimaryScopeTable(scope), Skipped, Joined(scope))
        == CompileFrom(acc, [], [name], PrimaryScopeTable(scope), Skipped, Joined(scope));
  }

  /** `included_datasource_rows(att, datasource_data, rows)` with the child dataset's primary
      scope table as the restricted table. */
  function IncludedDatasourceRows(att: Attribute, select: seq<Value>, childScope: Scope, rows: seq<Row>,
                                  fetch: ChildQuery -> seq<Row>): (r: map<Value, seq<Row>>)
    requires att.kind.Included?
    ensures var q := ChildQueryFor(select, att.kind.foreignKey, att.kind.idKey, PrimaryScopeTable(childScope), rows);
      q.column == PrimaryScopeTable(childScope) + "." + att.kind.foreignKey &&
      forall k :: k in r <==> exists i :: 0 <= i < |fetch(q)| && Get(fetch(q)[i], att.kind.foreignKey) == k
    ensures Str(att.kind.foreignKey) !in select ==> forall k, row :: k in r && row in r[k] ==> att.kind.foreignKey !in row
  {
    var table := PrimaryScopeTable(childScope);
    IncludedRows.IncludedDatasourceRowsSpec(select, att.kind.foreignKey, att.kind.idKey, table, rows, fetch);
    IncludedRows.IncludedDatasourceRows(select, att.kind.foreignKey, att.kind.idKey, table, rows, fetch)
  }

  /** The attributes `to_orm_object(row)` hands to the model: the row's entries whose key is a
      column of the model, except `id`. */
  function OrmAttributes(row: Row, columns: set<string>): (r: Row)
    ensures IdKey !in r
    ensures forall k :: k in r <==> k in row && k in columns && k != IdKey
    ensures forall k :: k in r ==> r[k] == row[k]
  {
    map k | k in row && k in columns && k != IdKey :: row[k]
  }

  /** Filtering twice is filtering once, and a row holding only non-id model columns passes
      unchanged. */
  lemma OrmAttributesIdempotent(row: Row, columns: set<string>)
    ensures OrmAttributes(OrmAttributes(row, columns), columns) == OrmAttributes(row, columns)
    ensures (forall k :: k in row ==> k in columns && k != IdKey) ==> OrmAttributes(row, columns) == row
  {
    var once := OrmAttributes(row, columns);
    assert OrmAttributes(once, columns).Keys == once.Keys;
    if forall k :: k in row ==> k in columns && k != IdKey {
      assert once.Keys == row.Keys;
    }
  }
}
