/** Rows of an included (has-many) sub-datasource: the child select gets the foreign key, the
    child scope is restricted to the parents' ids, the child rows are grouped by the foreign key,
    and the key is stripped again when the caller did not ask for it. The monolithic datasource's
    `results` and both adapters' `included_datasource_rows` share this logic. */
module IncludedRows {
  import opened Values
  import opened Grouping

  /** What the child datasource is asked for: its select list, and the restriction
      `<column> IN (<ids>)`. Running it is opaque. */
  datatype ChildQuery = ChildQuery(select: seq<Value>, column: string, ids: seq<Value>)

  /** `ds_select += [fk] unless ds_select.include?(fk)`: a new list, the caller's left intact in
      front. */
  function ChildSelect(select: seq<Value>, fk: string): (r: seq<Value>)
    ensures Str(fk) in r && |select| <= |r| && r[..|select|] == select
    ensures |r| == if Str(fk) in select then |select| else |select| + 1
  {
    if Str(fk) in select then select else select + [Str(fk)]
  }

  /** Every row with `fk` deleted. */
  function StripRows(rows: seq<Row>, fk: string): (r: seq<Row>)
    ensures |r| == |rows| && forall i :: 0 <= i < |rows| ==> r[i] == rows[i] - {fk}
  {
    seq(|rows|, i requires 0 <= i < |rows| => rows[i] - {fk})
  }

  /** `grouped.each_pair { |k, rows| rows.each { |row| row.delete(fk) } }`. */
  function StripGroups(groups: map<Value, seq<Row>>, fk: string): (r: map<Value, seq<Row>>)
    ensures r.Keys == groups.Keys && forall k :: k in groups ==> r[k] == StripRows(groups[k], fk)
  {
    map k | k in groups :: StripRows(groups[k], fk)
  }

  /** The query sent for the children of `rows`. */
  function ChildQueryFor(select: seq<Value>, fk: string, idKey: string, childTable: string, rows: seq<Row>): ChildQuery {
    ChildQuery(ChildSelect(select, fk), childTable + "." + fk, ColumnValues(rows, idKey))
  }

  /** `included_datasource_rows(att, datasource_data, rows)`: the child rows `fetch` returns for the
      child query, grouped by their foreign key, with the key stripped unless `select` asked for
      it. */
  function IncludedDatasourceRows(select: seq<Value>, fk: string, idKey: string, childTable: string,
                                  rows: seq<Row>, fetch: ChildQuery -> seq<Row>): map<Value, seq<Row>>
  {
    var children := fetch(ChildQueryFor(select, fk, idKey, childTable, rows));
    var groups := GroupFold(map[], ColumnValues(children, fk), children);
    if Str(fk) in select then groups else StripGroups(groups, fk)
  }

  /** The child query selects the foreign key whatever the caller asked for, keeps the caller's
      list in front, filters on `<child table>.<fk>`, and carries the parents' `id_key` values in
      order; the groups are keyed by the children's foreign-key values, each group holds the
      children with that key in fetch order, and each child row loses the key exactly when the
      caller's select lacked it. */
  lemma IncludedDatasourceRowsSpec(select: seq<Value>, fk: string, idKey: string, childTable: string,
                                   rows: seq<Row>, fetch: ChildQuery -> seq<Row>)
    ensures var q := ChildQueryFor(select, fk, idKey, childTable, rows);
      Str(fk) in q.select && q.select[..|select|] == select && q.column == childTable + "." + fk &&
      |q.ids| == |rows| && forall i :: 0 <= i < |rows| ==> q.ids[i] == Get(rows[i], idKey)
    ensures var children := fetch(ChildQueryFor(select, fk, idKey, childTable, rows));
      var g := IncludedDatasourceRows(select, fk, idKey, childTable, rows, fetch);
      forall k :: k in g <==> exists i :: 0 <= i < |children| && Get(children[i], fk) == k
    ensures var children := fetch(ChildQueryFor(select, fk, idKey, childTable, rows));
      var g := IncludedDatasourceRows(select, fk, idKey, childTable, rows, fetch);
      forall k :: k in g ==>
        g[k] == if Str(fk) in select then ItemsWithKey(ColumnValues(children, fk), children, k)
                else StripRows(ItemsWithKey(ColumnValues(children, fk), children, k), fk)
    ensures var g := IncludedDatasourceRows(select, fk, idKey, childTable, rows, fetch);
      Str(fk) !in select ==> forall k, r :: k in g && r in g[k] ==> fk !in r
  {
    var children := fetch(ChildQueryFor(select, fk, idKey, childTable, rows));
    var keys := ColumnValues(children, fk);
    GroupFoldSpec(map[], keys, children);
    var groups := GroupFold(map[], keys, children);
    forall k ensures k in groups <==> exists i :: 0 <= i < |children| && Get(children[i], fk) == k {
      if k in groups {
        var i :| 0 <= i < |keys| && keys[i] == k;
      }
      if exists i :: 0 <= i < |children| && Get(children[i], fk) == k {
        var i :| 0 <= i < |children| && Get(children[i], fk) == k;
        assert keys[i] == k;
      }
    }
  }
}
