/** The join checks run before a dependency table is selected from: `check_table_join!` (the
    monolithic datasource) and the ActiveRecord `ensure_table_join!`, which look through the
    scope's `joins_values`, and the Sequel `ensure_table_join!`, which looks through
    `opts[:join]`. Every one of them compares a join with the ATTRIBUTE's name, not with the table
    it was asked about; the table only appears in the error message. */
module JoinCheck {
  import opened Values
  import opened JoinPattern

  /** The error raised when no join matches. */
  function NotJoined(table: string, attName: string): Error {
    RuntimeError("Given scope does not join on " + table + ", but it is required by " + attName)
  }

  /** One entry of an ActiveRecord scope's `joins_values`: an association Symbol, a raw SQL
      String, or anything else (a join dependency object), which never matches. */
  datatype ArJoin = JoinSymbol(name: string) | JoinString(sql: string) | JoinOther

  /** The block given to `find`: a Symbol whose name is the attribute's name, or a String whose
      `join (\w+)` capture is the attribute's name. */
  predicate ArJoinMatches(j: ArJoin, attName: string) {
    match j
    case JoinSymbol(n) => n == attName
    case JoinString(sql) => JoinCapture(sql) == Some(attName)
    case JoinOther => false
  }

  /** `joins_values.find { ... }`: the first matching join. */
  function FindArJoin(joins: seq<ArJoin>, attName: string): (r: Option<ArJoin>)
    ensures r.Some? ==> r.value in joins && ArJoinMatches(r.value, attName)
    ensures r.None? <==> forall j :: j in joins ==> !ArJoinMatches(j, attName)
  {
    if |joins| == 0 then None
    else if ArJoinMatches(joins[0], attName) then Some(joins[0])
    else FindArJoin(joins[1..], attName)
  }

  /** `check_table_join!(name, att)` / `ensure_table_join!(scope, name, att)` over ActiveRecord
      joins. */
  function EnsureArJoin(joins: seq<ArJoin>, table: string, attName: string): (r: Result<()>)
    ensures r.Ok? <==> exists j :: j in joins && ArJoinMatches(j, attName)
    ensures r.Err? ==> r.error == NotJoined(table, attName)
  {
    if FindArJoin(joins, attName).Some? then Ok(()) else Err(NotJoined(table, attName))
  }

  /** The checked table never decides the outcome: two checks for the same attribute succeed or
      fail together whatever tables they are about. */
  lemma ArJoinIgnoresTable(joins: seq<ArJoin>, t1: string, t2: string, attName: string)
    ensures EnsureArJoin(joins, t1, attName).Ok? == EnsureArJoin(joins, t2, attName).Ok?
  {
  }

  /** A scope `joins("INNER JOIN posts")` satisfies the check of table "posts" for an attribute
      named "posts", but not for a computed attribute "post_count" that depends on table
      "posts". */
  lemma ArJoinComparesAttributeName()
    ensures EnsureArJoin([JoinString("INNER JOIN posts")], "posts", "post_count").Err?
    ensures EnsureArJoin([JoinString("INNER JOIN posts")], "posts", "posts").Ok?
  {
    UpperCaseJoinCaptures();
    var j := JoinString("INNER JOIN posts");
    assert ArJoinMatches(j, "posts");
    assert !ArJoinMatches(j, "post_count");
  }

  /** One entry of a Sequel dataset's `opts[:join]`: its alias, if any, and its table. */
  datatype SequelJoin = SequelJoin(tableAlias: Option<string>, table: string)

  /** `(value.table_alias || value.table).to_s`. */
  function SequelJoinName(j: SequelJoin): string {
    match j.tableAlias
    case Some(a) => a
    case None => j.table
  }

  /** The Sequel `ensure_table_join!` as written: `Hash(scope.opts[:join])` turns a missing or
      empty join list into `{}`, where nothing is found, and raises a TypeError for any other
      Array, so the check never succeeds. */
  function EnsureSequelJoinAsWritten(joins: Option<seq<SequelJoin>>, table: string, attName: string): (r: Result<()>)
    ensures r.Err?
  {
    if joins.Some? && |joins.value| > 0 then Err(TypeError("can't convert Array into Hash"))
    else Err(NotJoined(table, attName))
  }

  /** The Sequel check as evidently intended (`Array(scope.opts[:join]).find`): it succeeds when some
      join's alias, or else its table, is the attribute's name. */
  function EnsureSequelJoin(joins: Option<seq<SequelJoin>>, table: string, attName: string): (r: Result<()>)
    ensures r.Ok? <==> joins.Some? && exists j :: j in joins.value && SequelJoinName(j) == attName
    ensures r.Err? ==> r.error == NotJoined(table, attName)
  {
    match joins
    case None => Err(NotJoined(table, attName))
    case Some(js) =>
      if FindSequelJoin(js, attName).Some? then Ok(()) else Err(NotJoined(table, attName))
  }

  function FindSequelJoin(joins: seq<SequelJoin>, attName: string): (r: Option<SequelJoin>)
    ensures r.Some? ==> r.value in joins && SequelJoinName(r.value) == attName
    ensures r.None? <==> forall j :: j in joins ==> SequelJoinName(j) != attName
  {
    if |joins| == 0 then None
    else if SequelJoinName(joins[0]) == attName then Some(joins[0])
    else FindSequelJoin(joins[1..], attName)
  }

  /** The discrepancy: a dataset joined on `authors` passes the intended check for an attribute
      named "authors", while the check as written raises a TypeError. */
  lemma SequelJoinAsWrittenRejectsJoinedScope()
    ensures EnsureSequelJoin(Some([SequelJoin(None, "authors")]), "authors", "authors") == Ok(())
    ensures EnsureSequelJoinAsWritten(Some([SequelJoin(None, "authors")]), "authors", "authors")
      == Err(TypeError("can't convert Array into Hash"))
  {
    assert SequelJoinName(SequelJoin(None, "authors")) == "authors";
  }

  /** An alias takes precedence over the table it names: a join of table `t` aliased `a` matches
      an attribute named `a`, and not one named `t` (when `a` differs from `t`). */
  lemma SequelAliasWins(a: string, t: string)
    requires a != t
    ensures EnsureSequelJoin(Some([SequelJoin(Some(a), t)]), t, a).Ok?
    ensures EnsureSequelJoin(Some([SequelJoin(Some(a), t)]), t, t).Err?
  {
    assert SequelJoinName(SequelJoin(Some(a), t)) == a;
  }
}
