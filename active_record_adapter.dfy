/** The ActiveRecord adapter: the select list it compiles for a scope, its join check over the
    scope's `joins_values`, the rows of an included sub-datasource, and the column filter of the
    `Datasource.From(Model)` generator. */
module ActiveRecordAdapter {
  import opened Values
  import opened Registry
  import opened JoinCheck
  import opened SelectCompiler
  import opened IncludedRows

  /** `ID_KEY`: the primary-key column. */
  const IdKey: string := "id"

  /** What the adapter reads of an ActiveRecord scope: the table of its model and its
      `joins_values`. */
  datatype Scope = Scope(tableName: string, joins: seq<ArJoin>)

  /** `ensure_table_join!` succeeds for an attribute exactly when some join matches its name. */
  function Joined(scope: Scope): string -> bool {
    attName => FindArJoin(scope.joins, attName).Some?
  }

  /** `get_select_values(scope)`: no dependency key is skipped, so a computed attribute's
      `loader` entry is join-checked and selected like a table. */
  method GetSelectValues(attrs: seq<Attribute>, expose: seq<string>, scope: Scope) returns (r: Result<seq<string>>)
    ensures r == SelectList(attrs, expose, scope.tableName, {}, Joined(scope))
    ensures r.Ok? ==> NoDup(r.value) && |r.value| >= 1 && r.value[0] == scope.tableName + "." + IdKey
    ensures r.Ok? <==> forall a :: a in attrs && a.name in expose && NeedsJoin(a, scope.tableName, {}) ==>
      exists j :: j in scope.joins && ArJoinMatches(j, a.name)
    ensures r.Err? ==> exists a, t :: a in attrs && a.name in expose && r.error == NotJoined(t, a.name)
  {
    r := Compile(attrs, expose, scope.tableName, {}, Joined(scope));
    SelectListSpec(attrs, expose, scope.tableName, {}, Joined(scope));
    SelectListMembers(attrs, expose, scope.tableName, {}, Joined(scope));
    if r.Err? {
      SelectListError(attrs, expose, scope.tableName, {}, Joined(scope));
    }
  }

  /** `ensure_table_join!(scope, name, att)`. */
  function EnsureTableJoin(scope: Scope, table: string, attName: string): (r: Result<()>)
    ensures r.Ok? <==> Joined(scope)(attName)
    ensures r.Err? ==> r.error == NotJoined(table, attName)
  {
    EnsureArJoin(scope.joins, table, attName)
  }

  /** A computed attribute that reads a loader (`computed name, loader: name`) is only compiled
      for a scope joined on the attribute's own name; with such a join its loader entry becomes
      the column `"loader.<name>"`. */
  lemma LoaderDependencyIsJoinChecked(name: string, scope: Scope)
    requires scope.tableName != LoaderKey
    ensures var att := Attribute(name, Computed([Dependency(LoaderKey, [name])]));
      var r := SelectList([att], [name], scope.tableName, {}, Joined(scope));
      (r.Ok? <==> exists j :: j in scope.joins && ArJoinMatches(j, name)) &&
      (r.Ok? ==> LoaderKey + "." + name in r.value)
  {
    var att := Attribute(name, Computed([Dependency(LoaderKey, [name])]));
    SelectListMembers([att], [name], scope.tableName, {}, Joined(scope));
    assert NeedsJoin(att, scope.tableName, {}) by {
      assert Dependency(LoaderKey, [name]) in att.kind.depends;
    }
    assert att in [att];
    assert Dependency(LoaderKey, [name]) in att.kind.depends && name in [name];
  }

  /** `included_datasource_rows(att, datasource_data, rows)` for an attribute included from the
      child datasource over the table `childTable`: the shared grouping with the restriction on
      `<childTable>.<foreign key>`. */
  function IncludedDatasourceRows(att: Attribute, select: seq<Value>, childTable: string, rows: seq<Row>,
                                  fetch: ChildQuery -> seq<Row>): (r: map<Value, seq<Row>>)
    requires att.kind.Included?
    ensures var q := ChildQueryFor(select, att.kind.foreignKey, att.kind.idKey, childTable, rows);
      var children := fetch(q);
      forall k :: k in r <==> exists i :: 0 <= i < |children| && Get(children[i], att.kind.foreignKey) == k
    ensures Str(att.kind.foreignKey) !in select ==> forall k, row :: k in r && row in r[k] ==> att.kind.foreignKey !in row
  {
    IncludedRows.IncludedDatasourceRowsSpec(select, att.kind.foreignKey, att.kind.idKey, childTable, rows, fetch);
    IncludedRows.IncludedDatasourceRows(select, att.kind.foreignKey, att.kind.idKey, childTable, rows, fetch)
  }

  /** The model's columns minus the skipped names, in column order. */
  function KeptColumns(columns: seq<string>, skip: seq<string>): (r: seq<string>)
    ensures forall c :: c in r <==> c in columns && c !in skip
    ensures |r| <= |columns|
  {
    if |columns| == 0 then []
    else if columns[0] in skip then KeptColumns(columns[1..], skip)
    else [columns[0]] + KeptColumns(columns[1..], skip)
  }

  /** `Datasource.From(Model, assocs, skip)`: a fresh datasource class whose attributes are the
      model's columns that are not skipped, each a plain column. */
  method From(modelName: string, columns: seq<string>, skip: seq<string>) returns (ds: DatasourceClass)
    ensures fresh(ds) && ds.Valid() && ds.modelName == modelName
    ensures forall c :: c in columns && c !in skip ==> FindAttribute(ds.attributes, c) == Some(Attribute(c, Plain))
    ensures forall c :: c !in columns || c in skip ==> FindAttribute(ds.attributes, c).None?
  {
    ds := new DatasourceClass.Inherit(null, modelName, {});
    ds.DeclareAttributes(KeptColumns(columns, skip));
  }
}
