/** The select list the monolithic datasource and both adapters compile from the exposed
    attributes: `"<table>.id"` first, then, attribute by attribute in registry order, the column
    of a plain attribute, every `"<table>.<column>"` a computed attribute depends on (after its
    non-scope tables are join-checked), or the `"(<expr>) as <name>"` of a query attribute (whose
    non-scope tables are then join-checked), each string added once. */
module SelectCompiler {
  import opened Values
  import opened Registry
  import opened JoinCheck

  /** The tables of a dependency map, in order. */
  function TablesOf(deps: seq<Dependency>): (ts: seq<string>)
    ensures |ts| == |deps| && forall i :: 0 <= i < |deps| ==> ts[i] == deps[i].table
  {
    seq(|deps|, i requires 0 <= i < |deps| => deps[i].table)
  }

  /** The join checks of `tables` for attribute `attName`: the scope's own table and the tables in
      `skip` are not checked; the first other table whose check fails raises. `joined` answers
      whether the scope has a join matching the attribute. */
  function CheckTables(tables: seq<string>, scopeTable: string, skip: set<string>, attName: string,
                       joined: string -> bool): (r: Result<()>)
    ensures r.Ok? <==> forall t :: t in tables && t != scopeTable && t !in skip ==> joined(attName)
    ensures r.Err? ==> exists t :: t in tables && t != scopeTable && t !in skip && r.error == NotJoined(t, attName)
  {
    if |tables| == 0 then Ok(())
    else if tables[0] == scopeTable || tables[0] in skip then CheckTables(tables[1..], scopeTable, skip, attName, joined)
    else if !joined(attName) then Err(NotJoined(tables[0], attName))
    else CheckTables(tables[1..], scopeTable, skip, attName, joined)
  }

  /** `"<table>.<column>"` for every column of every entry whose table is not in `skip`, in order. */
  function DependencyColumns(deps: seq<Dependency>, skip: set<string>): seq<string> {
    if |deps| == 0 then []
    else
      var here := if deps[0].table in skip then [] else Qualified(deps[0].table, deps[0].columns);
      here + DependencyColumns(deps[1..], skip)
  }

  function Qualified(table: string, columns: seq<string>): (r: seq<string>)
    ensures |r| == |columns| && forall i :: 0 <= i < |columns| ==> r[i] == table + "." + columns[i]
  {
    seq(|columns|, i requires 0 <= i < |columns| => table + "." + columns[i])
  }

  /** A dependency column appears in the list exactly when some non-skipped entry lists it. */
  lemma {:induction false} DependencyColumnsSpec(deps: seq<Dependency>, skip: set<string>)
    ensures forall s :: s in DependencyColumns(deps, skip) <==>
      exists d, c :: d in deps && d.table !in skip && c in d.columns && s == d.table + "." + c
    decreases |deps|
  {
    if |deps| > 0 {
      DependencyColumnsSpec(deps[1..], skip);
      var here := if deps[0].table in skip then [] else Qualified(deps[0].table, deps[0].columns);
      forall s ensures s in DependencyColumns(deps, skip) <==>
        exists d, c :: d in deps && d.table !in skip && c in d.columns && s == d.table + "." + c
      {
        if s in here {
          var i :| 0 <= i < |here| && here[i] == s;
          assert deps[0] in deps && deps[0].columns[i] in deps[0].columns;
        }
        if s in DependencyColumns(deps[1..], skip) {
          var d, c :| d in deps[1..] && d.table !in skip && c in d.columns && s == d.table + "." + c;
          assert d in deps;
        }
        if exists d, c :: d in deps && d.table !in skip && c in d.columns && s == d.table + "." + c {
          var d, c :| d in deps && d.table !in skip && c in d.columns && s == d.table + "." + c;
          if d == deps[0] {
            var i :| 0 <= i < |d.columns| && d.columns[i] == c;
            assert here[i] == s;
          } else {
            var i :| 0 <= i < |deps| && deps[i] == d;
            assert deps[1..][i - 1] == d;
          }
        }
      }
    }
  }

  /** What one exposed attribute adds to the select list, in order, or the error its join checks
      raise. */
  function Contribution(att: Attribute, scopeTable: string, skip: set<string>, joined: string -> bool): Result<seq<string>> {
    match att.kind
    case Plain => Ok([scopeTable + "." + att.name])
    case Computed(deps) =>
      var _ :- CheckTables(TablesOf(deps), scopeTable, skip, att.name, joined);
      Ok(DependencyColumns(deps, skip))
    case Query(tables, selectValue) =>
      var _ :- CheckTables(tables, scopeTable, {}, att.name, joined);
      Ok(["(" + selectValue + ") as " + att.name])
    case Included(_, _, _) => Ok([])
  }

  /** The list built from `acc` over `attrs`: exposed attributes contribute, the first error stops. */
  function CompileFrom(acc: seq<string>, attrs: seq<Attribute>, expose: seq<string>, scopeTable: string,
                       skip: set<string>, joined: string -> bool): Result<seq<string>>
    decreases |attrs|
  {
    if |attrs| == 0 then Ok(acc)
    else if attrs[0].name !in expose then CompileFrom(acc, attrs[1..], expose, scopeTable, skip, joined)
    else
      var c :- Contribution(attrs[0], scopeTable, skip, joined);
      CompileFrom(AppendAll(acc, c), attrs[1..], expose, scopeTable, skip, joined)
  }

  /** The list `get_select_values` returns: `"<table>.id"` first. */
  function SelectList(attrs: seq<Attribute>, expose: seq<string>, scopeTable: string, skip: set<string>,
                      joined: string -> bool): Result<seq<string>>
  {
    CompileFrom([scopeTable + ".id"], attrs, expose, scopeTable, skip, joined)
  }

  /** Compiling keeps what was accumulated in front, adds no duplicate, adds exactly the
      contributions of the exposed attributes, and fails exactly when one of them fails. */
  lemma {:induction false} CompileFromSpec(acc: seq<string>, attrs: seq<Attribute>, expose: seq<string>,
                                           scopeTable: string, skip: set<string>, joined: string -> bool)
    requires NoDup(acc)
    ensures var r := CompileFrom(acc, attrs, expose, scopeTable, skip, joined);
      r.Ok? <==> forall a :: a in attrs && a.name in expose ==> Contribution(a, scopeTable, skip, joined).Ok?
    ensures var r := CompileFrom(acc, attrs, expose, scopeTable, skip, joined);
      r.Ok? ==> NoDup(r.value) && |acc| <= |r.value| && r.value[..|acc|] == acc
    ensures var r := CompileFrom(acc, attrs, expose, scopeTable, skip, joined);
      r.Ok? ==> forall s :: s in r.value <==>
        (s in acc || exists a :: a in attrs && a.name in expose && s in Contribution(a, scopeTable, skip, joined).value)
    decreases |attrs|
  {
    if |attrs| > 0 {
      assert forall a :: a in attrs <==> a == attrs[0] || a in attrs[1..];
      if attrs[0].name !in expose {
        CompileFromSpec(acc, attrs[1..], expose, scopeTable, skip, joined);
      } else {
        var c := Contribution(attrs[0], scopeTable, skip, joined);
        if c.Ok? {
          AppendAllProperties(acc, c.value);
          var acc' := AppendAll(acc, c.value);
          CompileFromSpec(acc', attrs[1..], expose, scopeTable, skip, joined);
          var r := CompileFrom(acc', attrs[1..], expose, scopeTable, skip, joined);
          if r.Ok? {
            assert r.value[..|acc|] == r.value[..|acc'|][..|acc|];
          }
        }
      }
    }
  }

  /** The compiled list is duplicate-free, starts with `"<table>.id"`, and holds exactly the id
      column and the contributions of the exposed attributes; it fails exactly when an exposed
      attribute's join check fails. */
  lemma SelectListSpec(attrs: seq<Attribute>, expose: seq<string>, scopeTable: string, skip: set<string>,
                       joined: string -> bool)
    ensures var r := SelectList(attrs, expose, scopeTable, skip, joined);
      r.Ok? <==> forall a :: a in attrs && a.name in expose ==> Contribution(a, scopeTable, skip, joined).Ok?
    ensures var r := SelectList(attrs, expose, scopeTable, skip, joined);
      r.Ok? ==> NoDup(r.value) && |r.value| >= 1 && r.value[0] == scopeTable + ".id"
    ensures var r := SelectList(attrs, expose, scopeTable, skip, joined);
      r.Ok? ==> forall s :: s in r.value <==>
        (s == scopeTable + ".id" || exists a :: a in attrs && a.name in expose && s in Contribution(a, scopeTable, skip, joined).value)
  {
    CompileFromSpec([scopeTable + ".id"], attrs, expose, scopeTable, skip, joined);
  }

  /** A computed attribute's contribution: it succeeds exactly when every dependency table other
      than the scope's own and the skipped ones is joined (judged by the attribute's name), and
      then holds every `"<table>.<column>"` of its non-skipped entries, the scope's own table
      included. */
  lemma ComputedContributionSpec(name: string, deps: seq<Dependency>, scopeTable: string, skip: set<string>,
                                 joined: string -> bool)
    ensures var r := Contribution(Attribute(name, Computed(deps)), scopeTable, skip, joined);
      r.Ok? <==> forall d :: d in deps && d.table != scopeTable && d.table !in skip ==> joined(name)
    ensures var r := Contribution(Attribute(name, Computed(deps)), scopeTable, skip, joined);
      r.Ok? ==> forall s :: s in r.value <==>
        exists d, c :: d in deps && d.table !in skip && c in d.columns && s == d.table + "." + c
  {
    DependencyColumnsSpec(deps, skip);
    var ts := TablesOf(deps);
    assert forall t :: t in ts <==> exists d :: d in deps && d.table == t by {
      forall t | t in ts ensures exists d :: d in deps && d.table == t {
        var i :| 0 <= i < |ts| && ts[i] == t;
        assert deps[i] in deps;
      }
      forall t | exists d :: d in deps && d.table == t ensures t in ts {
        var d :| d in deps && d.table == t;
        var i :| 0 <= i < |deps| && deps[i] == d;
        assert ts[i] == t;
      }
    }
  }

  /** A query attribute contributes its expression as its name, once its non-scope tables are
      joined (judged by the attribute's name). */
  lemma QueryContributionSpec(name: string, tables: seq<string>, selectValue: string, scopeTable: string,
                              skip: set<string>, joined: string -> bool)
    ensures var r := Contribution(Attribute(name, Query(tables, selectValue)), scopeTable, skip, joined);
      (r.Ok? <==> forall t :: t in tables && t != scopeTable ==> joined(name)) &&
      (r.Ok? ==> r.value == ["(" + selectValue + ") as " + name])
  {
  }

  /** `xs.each { |x| set.add(x) }` on an insertion-ordered Set. */
  method AddAll(acc: seq<string>, xs: seq<string>) returns (r: seq<string>)
    ensures r == AppendAll(acc, xs)
  {
    r := acc;
    var j := 0;
    while j < |xs|
      invariant 0 <= j <= |xs|
      invariant r == AppendAll(acc, xs[..j])
    {
      AppendAllStep(acc, xs, j);
      r := AppendUnique(r, xs[j]);
      j := j + 1;
    }
    assert xs[..j] == xs;
  }

  /** `get_select_values`: the Set seeded with `"<table>.id"`, then every exposed attribute's
      contribution added in registry order; a failing join check raises. */
  method Compile(attrs: seq<Attribute>, expose: seq<string>, scopeTable: string, skip: set<string>,
                 joined: string -> bool) returns (r: Result<seq<string>>)
    ensures r == SelectList(attrs, expose, scopeTable, skip, joined)
  {
    var acc := [scopeTable + ".id"];
    var i := 0;
    while i < |attrs|
      invariant 0 <= i <= |attrs|
      invariant SelectList(attrs, expose, scopeTable, skip, joined) == CompileFrom(acc, attrs[i..], expose, scopeTable, skip, joined)
    {
      DropCons(attrs, i);
      if attrs[i].name in expose {
        var c := Contribution(attrs[i], scopeTable, skip, joined);
        if c.Err? {
          return Err(c.error);
        }
        acc := AddAll(acc, c.value);
      }
      i := i + 1;
    }
    r := Ok(acc);
  }

  /** Whether an attribute's contribution depends on a join check: a computed attribute with a
      dependency table other than the scope's and the skipped ones, or a query attribute with a
      table other than the scope's. */
  predicate NeedsJoin(att: Attribute, scopeTable: string, skip: set<string>) {
    match att.kind
    case Computed(deps) => exists d :: d in deps && d.table != scopeTable && d.table !in skip
    case Query(tables, _) => exists t :: t in tables && t != scopeTable
    case _ => false
  }

  /** Compilation fails exactly when an exposed attribute needs a join and the scope has no join
      matching that attribute's name; when it succeeds, the list holds `"<table>.<name>"` for
      every exposed plain attribute, `"<table>.<column>"` for every non-skipped dependency of
      every exposed computed attribute, and `"(<expr>) as <name>"` for every exposed query
      attribute. */
  lemma SelectListMembers(attrs: seq<Attribute>, expose: seq<string>, scopeTable: string, skip: set<string>,
                          joined: string -> bool)
    ensures var r := SelectList(attrs, expose, scopeTable, skip, joined);
      r.Ok? <==> forall a :: a in attrs && a.name in expose && NeedsJoin(a, scopeTable, skip) ==> joined(a.name)
    ensures var r := SelectList(attrs, expose, scopeTable, skip, joined);
      r.Ok? ==> forall a :: a in attrs && a.name in expose && a.kind.Plain? ==> scopeTable + "." + a.name in r.value
    ensures var r := SelectList(attrs, expose, scopeTable, skip, joined);
      r.Ok? ==> forall a :: a in attrs && a.name in expose && a.kind.Query? ==>
        "(" + a.kind.selectValue + ") as " + a.name in r.value
    ensures var r := SelectList(attrs, expose, scopeTable, skip, joined);
      r.Ok? ==> forall a, d, c ::
        (a in attrs && a.name in expose && a.kind.Computed? && d in a.kind.depends && d.table !in skip && c in d.columns)
        ==> d.table + "." + c in r.value
  {
    SelectListSpec(attrs, expose, scopeTable, skip, joined);
    forall a | a in attrs && a.name in expose
      ensures Contribution(a, scopeTable, skip, joined).Ok? <==> (NeedsJoin(a, scopeTable, skip) ==> joined(a.name))
      ensures Contribution(a, scopeTable, skip, joined).Ok? && a.kind.Plain? ==>
        Contribution(a, scopeTable, skip, joined).value == [scopeTable + "." + a.name]
      ensures Contribution(a, scopeTable, skip, joined).Ok? && a.kind.Query? ==>
        Contribution(a, scopeTable, skip, joined).value == ["(" + a.kind.selectValue + ") as " + a.name]
      ensures Contribution(a, scopeTable, skip, joined).Ok? && a.kind.Computed? ==>
        forall d, c :: d in a.kind.depends && d.table !in skip && c in d.columns ==>
          d.table + "." + c in Contribution(a, scopeTable, skip, joined).value
    {
      match a.kind
      case Computed(deps) => ComputedContributionSpec(a.name, deps, scopeTable, skip, joined);
      case Query(tables, sv) => QueryContributionSpec(a.name, tables, sv, scopeTable, skip, joined);
      case _ =>
    }
  }

  /** A failed compilation reports the missing join of an exposed attribute, by that attribute's
      name. */
  lemma {:induction false} CompileFromError(acc: seq<string>, attrs: seq<Attribute>, expose: seq<string>,
                                            scopeTable: string, skip: set<string>, joined: string -> bool)
    ensures var r := CompileFrom(acc, attrs, expose, scopeTable, skip, joined);
      r.Err? ==> exists a, t :: a in attrs && a.name in expose && r.error == NotJoined(t, a.name)
    decreases |attrs|
  {
    if |attrs| > 0 {
      var r := CompileFrom(acc, attrs, expose, scopeTable, skip, joined);
      if attrs[0].name !in expose {
        CompileFromError(acc, attrs[1..], expose, scopeTable, skip, joined);
        if r.Err? {
          var a, t :| a in attrs[1..] && a.name in expose && r.error == NotJoined(t, a.name);
          assert a in attrs;
        }
      } else {
        var c := Contribution(attrs[0], scopeTable, skip, joined);
        if c.Err? {
          assert attrs[0] in attrs;
          match attrs[0].kind
          case Computed(deps) =>
            var e := CheckTables(TablesOf(deps), scopeTable, skip, attrs[0].name, joined);
            assert e.Err?;
            var t :| t in TablesOf(deps) && t != scopeTable && t !in skip && e.error == NotJoined(t, attrs[0].name);
          case Query(tables, _) =>
            var e := CheckTables(tables, scopeTable, {}, attrs[0].name, joined);
            var t :| t in tables && t != scopeTable && e.error == NotJoined(t, attrs[0].name);
        } else {
          CompileFromError(AppendAll(acc, c.value), attrs[1..], expose, scopeTable, skip, joined);
          if r.Err? {
            var a, t :| a in attrs[1..] && a.name in expose && r.error == NotJoined(t, a.name);
            assert a in attrs;
          }
        }
      }
    }
  }

  lemma SelectListError(attrs: seq<Attribute>, expose: seq<string>, scopeTable: string, skip: set<string>,
                        joined: string -> bool)
    ensures var r := SelectList(attrs, expose, scopeTable, skip, joined);
      r.Err? ==> exists a, t :: a in attrs && a.name in expose && r.error == NotJoined(t, a.name)
  {
    CompileFromError([scopeTable + ".id"], attrs, expose, scopeTable, skip, joined);
  }
}
