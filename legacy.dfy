/** The monolithic `Datasource` class: a class-level list of attribute entries (pushed in
    declaration order, duplicates included), the request state of one datasource over an
    ActiveRecord scope (the exposed names, the select list, the data given for included
    datasources), `select`, which rebuilds the select list in place, and `results`, which
    computes values, attaches included children and prunes every row to the exposed names. */
module Legacy {
  import opened Values
  import opened Registry
  import opened JoinCheck
  import opened SelectCompiler
  import opened IncludedRows
  import ComputedAttributes
  import QueryAttributes
  import ActiveRecordAdapter

  /** The class-level `_attributes` list of a `Datasource` subclass. */
  class LegacyRegistry {
    var attributes: seq<Attribute>

    /** `inherited`: a subclass starts from a copy of its parent's list (empty for the root). */
    constructor Inherit(parent: LegacyRegistry?)
      ensures parent != null ==> attributes == parent.attributes
      ensures parent == null ==> attributes == []
    {
      attributes := if parent != null then parent.attributes else [];
    }

    /** `attribute(name)`: a plain column entry is pushed, even when the name is already there. */
    method DeclareAttribute(name: string)
      modifies this`attributes
      ensures attributes == old(attributes) + [Attribute(name, Plain)]
    {
      attributes := attributes + [Attribute(name, Plain)];
    }

    /** `attributes(*names)`: one plain entry per name, in order. */
    method DeclareAttributes(names: seq<string>)
      modifies this`attributes
      ensures |attributes| == |old(attributes)| + |names| && attributes[..|old(attributes)|] == old(attributes)
      ensures forall i :: 0 <= i < |names| ==> attributes[|old(attributes)| + i] == Attribute(names[i], Plain)
    {
      var i := 0;
      while i < |names|
        invariant 0 <= i <= |names|
        invariant |attributes| == |old(attributes)| + i && attributes[..|old(attributes)|] == old(attributes)
        invariant forall k :: 0 <= k < i ==> attributes[|old(attributes)| + k] == Attribute(names[k], Plain)
      {
        DeclareAttribute(names[i]);
        i := i + 1;
      }
    }

    /** `includes_many(name, klass, foreign_key)`: an included datasource whose children point
        at the parent's `"id"` through `foreign_key`. */
    method IncludesMany(name: string, datasource: string, foreignKey: string)
      modifies this`attributes
      ensures attributes == old(attributes) + [Attribute(name, Included(datasource, foreignKey, "id"))]
    {
      attributes := attributes + [Attribute(name, Included(datasource, foreignKey, "id"))];
    }

    /** `computed_attribute(name, deps) { value }`: a fresh computed-attribute class depending on
        `deps`, pushed as `name`. */
    method ComputedAttribute(name: string, deps: seq<Dependency>) returns (klass: ComputedAttributes.ComputedAttributeClass)
      modifies this`attributes
      ensures fresh(klass) && klass.depends == ComputedAttributes.MergeAll([], [deps])
      ensures attributes == old(attributes) + [Attribute(name, Computed(klass.depends))]
    {
      klass := new ComputedAttributes.ComputedAttributeClass.Inherit(null);
      klass.Depends([deps]);
      attributes := attributes + [Attribute(name, Computed(klass.depends))];
    }

    /** `query_attribute(name, deps) { select_value }`: a fresh query-attribute class depending on
        the table `deps`, pushed as `name`. */
    method QueryAttribute(name: string, deps: string, selectValue: string) returns (klass: QueryAttributes.QueryAttributeClass)
      modifies this`attributes
      ensures fresh(klass) && klass.depends == [deps]
      ensures attributes == old(attributes) + [Attribute(name, Query([deps], selectValue))]
    {
      klass := new QueryAttributes.QueryAttributeClass.Inherit(null);
      klass.Depends([deps]);
      attributes := attributes + [Attribute(name, Query(klass.depends, selectValue))];
    }
  }

  /** What `datasource_data[name]` holds for an included datasource: the child select list and
      the child scope's table. */
  datatype IncludeRequest = IncludeRequest(select: seq<Value>, childTable: string)

  /** One argument of `select`: a name, or a Hash of included-datasource data. */
  datatype SelectArg = Name(name: string) | Data(entries: seq<(string, IncludeRequest)>)

  /** The keys of a list of key-value entries (a data Hash, or a plan's included attributes), in
      order. */
  function EntryKeys<T>(entries: seq<(string, T)>): (r: seq<string>)
    ensures |r| == |entries| && forall i :: 0 <= i < |entries| ==> r[i] == entries[i].0
  {
    seq(|entries|, i requires 0 <= i < |entries| => entries[i].0)
  }

  /** The names `select` exposes for its arguments: a name itself, the keys of a Hash. */
  function ArgNames(args: seq<SelectArg>): seq<string> {
    if |args| == 0 then []
    else (match args[0] case Name(n) => [n] case Data(entries) => EntryKeys(entries)) + ArgNames(args[1..])
  }

  /** `datasource_data[k] = v` for every Hash entry of the arguments, in order. */
  function StoreData(data: map<string, IncludeRequest>, args: seq<SelectArg>): map<string, IncludeRequest>
    decreases |args|
  {
    if |args| == 0 then data
    else
      match args[0]
      case Name(_) => StoreData(data, args[1..])
      case Data(entries) => StoreData(StoreEntries(data, entries), args[1..])
  }

  function StoreEntries(data: map<string, IncludeRequest>, entries: seq<(string, IncludeRequest)>): map<string, IncludeRequest>
    decreases |entries|
  {
    if |entries| == 0 then data else StoreEntries(data[entries[0].0 := entries[0].1], entries[1..])
  }

  /** The argument at `i` is the next one `select` reads. */
  lemma ArgsUnfold(data: map<string, IncludeRequest>, args: seq<SelectArg>, i: int)
    requires 0 <= i < |args|
    ensures args[i].Name? ==> ArgNames(args[i..]) == [args[i].name] + ArgNames(args[i + 1..]) &&
                              StoreData(data, args[i..]) == StoreData(data, args[i + 1..])
    ensures args[i].Data? ==> ArgNames(args[i..]) == EntryKeys(args[i].entries) + ArgNames(args[i + 1..]) &&
                              StoreData(data, args[i..]) == StoreData(StoreEntries(data, args[i].entries), args[i + 1..])
  {
    DropCons(args, i);
  }

  lemma {:induction false} StoreEntriesSpec(data: map<string, IncludeRequest>, entries: seq<(string, IncludeRequest)>)
    ensures forall k :: k in StoreEntries(data, entries) <==> k in data || k in EntryKeys(entries)
    ensures forall k :: k in data && k !in EntryKeys(entries) ==> StoreEntries(data, entries)[k] == data[k]
    decreases |entries|
  {
    if |entries| > 0 {
      StoreEntriesSpec(data[entries[0].0 := entries[0].1], entries[1..]);
      assert EntryKeys(entries) == [entries[0].0] + EntryKeys(entries[1..]);
    }
  }

  /** The data recorded by `select` is keyed exactly by the old keys and the Hash keys of the
      arguments, each of which `select` also exposes; a key no argument mentions keeps its data. */
  lemma {:induction false} StoreDataSpec(data: map<string, IncludeRequest>, args: seq<SelectArg>)
    ensures forall k :: k in StoreData(data, args) ==> k in data || k in ArgNames(args)
    ensures forall k :: k in data ==> k in StoreData(data, args)
    ensures forall a, e :: a in args && a.Data? && e in a.entries ==> e.0 in StoreData(data, args)
    ensures forall k :: k in data && k !in ArgNames(args) ==> StoreData(data, args)[k] == data[k]
    decreases |args|
  {
    if |args| > 0 {
      assert forall a :: a in args <==> a == args[0] || a in args[1..];
      match args[0]
      case Name(_) =>
        StoreDataSpec(data, args[1..]);
      case Data(entries) =>
        StoreEntriesSpec(data, entries);
        StoreDataSpec(StoreEntries(data, entries), args[1..]);
        forall e | e in entries ensures e.0 in StoreData(data, args) {
          var i :| 0 <= i < |entries| && entries[i] == e;
          assert EntryKeys(entries)[i] == e.0;
        }
    }
  }

  /** `attribute_map`: every registered name to its last entry. */
  function AttributeMap(attrs: seq<Attribute>): map<string, Attribute>
    decreases |attrs|
  {
    if |attrs| == 0 then map[]
    else AttributeMap(attrs[..|attrs| - 1])[attrs[|attrs| - 1].name := attrs[|attrs| - 1]]
  }

  /** The map holds exactly the registered names, each under the entry registered last. */
  lemma AttributeMapSpec(attrs: seq<Attribute>)
    ensures forall n :: n in AttributeMap(attrs) <==> exists a :: a in attrs && a.name == n
    ensures forall n :: n in AttributeMap(attrs) ==> AttributeMap(attrs)[n].name == n && AttributeMap(attrs)[n] in attrs
    ensures forall i :: 0 <= i < |attrs| && (forall j :: i < j < |attrs| ==> attrs[j].name != attrs[i].name) ==>
      AttributeMap(attrs)[attrs[i].name] == attrs[i]
  {
    AttributeMapKeys(attrs);
    AttributeMapLast(attrs);
  }

  lemma {:induction false} AttributeMapKeys(attrs: seq<Attribute>)
    ensures forall n :: n in AttributeMap(attrs) <==> exists a :: a in attrs && a.name == n
    ensures forall n :: n in AttributeMap(attrs) ==> AttributeMap(attrs)[n].name == n && AttributeMap(attrs)[n] in attrs
    decreases |attrs|
  {
    if |attrs| > 0 {
      var init, last := attrs[..|attrs| - 1], attrs[|attrs| - 1];
      AttributeMapKeys(init);
      assert forall a :: a in attrs <==> a in init || a == last;
    }
  }

  lemma {:induction false} AttributeMapLast(attrs: seq<Attribute>)
    ensures forall i :: 0 <= i < |attrs| && (forall j :: i < j < |attrs| ==> attrs[j].name != attrs[i].name) ==>
      attrs[i].name in AttributeMap(attrs) && AttributeMap(attrs)[attrs[i].name] == attrs[i]
    decreases |attrs|
  {
    if |attrs| > 0 {
      var init := attrs[..|attrs| - 1];
      AttributeMapKeys(init);
      AttributeMapLast(init);
      forall i | 0 <= i < |attrs| && (forall j :: i < j < |attrs| ==> attrs[j].name != attrs[i].name)
        ensures attrs[i].name in AttributeMap(attrs) && AttributeMap(attrs)[attrs[i].name] == attrs[i]
      {
        if i < |attrs| - 1 {
          assert init[i] == attrs[i] && init[i] in init;
          assert forall j :: i < j < |init| ==> init[j] == attrs[j];
        }
      }
    }
  }

  /** What `results` prepares before touching the rows: the exposed computed attributes, in
      order, and for each exposed included attribute its grouped children. */
  datatype Plan = Plan(computed: seq<string>, included: seq<(string, map<Value, seq<Row>>)>)

  /** The preparation loop over the exposed `names`: an unregistered name fails on `nil[:klass]`,
      an included attribute without datasource data on `nil[:select]`. */
  function PlanFrom(p: Plan, names: seq<string>, amap: map<string, Attribute>, data: map<string, IncludeRequest>,
                    rows: seq<Row>, children: ChildQuery -> seq<Row>): Result<Plan>
    decreases |names|
  {
    if |names| == 0 then Ok(p)
    else if names[0] !in amap then Err(NoMethodError("[]"))
    else
      match amap[names[0]].kind
      case Computed(_) => PlanFrom(Plan(p.computed + [names[0]], p.included), names[1..], amap, data, rows, children)
      case Included(_, fk, _) =>
        if names[0] !in data then Err(NoMethodError("[]"))
        else
          var g := IncludedRows.IncludedDatasourceRows(data[names[0]].select, fk, "id", data[names[0]].childTable, rows, children);
          PlanFrom(Plan(p.computed, p.included + [(names[0], g)]), names[1..], amap, data, rows, children)
      case _ => PlanFrom(p, names[1..], amap, data, rows, children)
  }

  /** The preparation succeeds exactly when every name is registered and every included one has
      data; the plan then lists the computed names and the included names among `names`, each
      once, in order, the two lists apart, and each included name's groups are the grouped
      children of the request recorded for it. */
  lemma {:induction false} PlanFromSpec(p: Plan, names: seq<string>, amap: map<string, Attribute>,
                                        data: map<string, IncludeRequest>, rows: seq<Row>, children: ChildQuery -> seq<Row>)
    requires forall n :: n in amap ==> amap[n].name == n
    requires NoDup(p.computed + EntryKeys(p.included) + names)
    ensures var r := PlanFrom(p, names, amap, data, rows, children);
      r.Ok? <==> forall n :: n in names ==> n in amap && (amap[n].kind.Included? ==> n in data)
    ensures var r := PlanFrom(p, names, amap, data, rows, children);
      r.Ok? ==> (NoDup(r.value.computed + EntryKeys(r.value.included)) &&
        (forall n :: n in r.value.computed <==> n in p.computed || (n in names && amap[n].kind.Computed?)) &&
        (forall n :: n in EntryKeys(r.value.included) <==> n in EntryKeys(p.included) || (n in names && amap[n].kind.Included?)))
    ensures var r := PlanFrom(p, names, amap, data, rows, children);
      r.Ok? ==> forall e :: e in r.value.included ==> (e in p.included ||
        (e.0 in names && e.0 in data && amap[e.0].kind.Included? &&
         e.1 == IncludedRows.IncludedDatasourceRows(data[e.0].select, amap[e.0].kind.foreignKey, "id", data[e.0].childTable, rows, children)))
    decreases |names|
  {
    if |names| > 0 {
      var n := names[0];
      assert forall m :: m in names <==> m == n || m in names[1..];
      var all := p.computed + EntryKeys(p.included) + names;
      assert n !in p.computed + EntryKeys(p.included) by {
        assert all[|p.computed + EntryKeys(p.included)|] == n;
        forall i | 0 <= i < |p.computed + EntryKeys(p.included)|
          ensures (p.computed + EntryKeys(p.included))[i] != n
        {
          assert all[i] == (p.computed + EntryKeys(p.included))[i];
        }
      }
      if n in amap {
        match amap[n].kind
        case Computed(_) =>
          var p' := Plan(p.computed + [n], p.included);
          assert all == p.computed + EntryKeys(p.included) + [n] + names[1..];
          assert p'.computed + EntryKeys(p'.included) + names[1..] == p.computed + [n] + EntryKeys(p.included) + names[1..];
          NoDupMoveFront(p.computed, EntryKeys(p.included), n, names[1..]);
          PlanFromSpec(p', names[1..], amap, data, rows, children);
        case Included(_, fk, _) =>
          if n in data {
            var g := IncludedRows.IncludedDatasourceRows(data[n].select, fk, "id", data[n].childTable, rows, children);
            var p' := Plan(p.computed, p.included + [(n, g)]);
            assert EntryKeys(p'.included) == EntryKeys(p.included) + [n];
            assert p'.computed + EntryKeys(p'.included) + names[1..] == p.computed + EntryKeys(p.included) + [n] + names[1..];
            assert all == p.computed + EntryKeys(p.included) + [n] + names[1..];
            PlanFromSpec(p', names[1..], amap, data, rows, children);
          }
        case _ =>
          assert all == (p.computed + EntryKeys(p.included)) + [n] + names[1..];
          NoDupDrop(p.computed + EntryKeys(p.included), n, names[1..]);
          PlanFromSpec(p, names[1..], amap, data, rows, children);
      }
    } else {
      assert p.computed + EntryKeys(p.included) + names == p.computed + EntryKeys(p.included);
    }
  }

  lemma NoDupDrop<T>(a: seq<T>, x: T, b: seq<T>)
    requires NoDup(a + [x] + b)
    ensures NoDup(a + b)
  {
    var all := a + [x] + b;
    forall i, j | 0 <= i < j < |a + b| ensures (a + b)[i] != (a + b)[j] {
      var i' := if i < |a| then i else i + 1;
      var j' := if j < |a| then j else j + 1;
      assert (a + b)[i] == all[i'] && (a + b)[j] == all[j'];
    }
  }

  lemma NoDupMoveFront<T>(a: seq<T>, b: seq<T>, x: T, c: seq<T>)
    requires NoDup(a + b + [x] + c)
    ensures NoDup(a + [x] + b + c)
  {
    var all := a + b + [x] + c;
    var moved := a + [x] + b + c;
    forall i, j | 0 <= i < j < |moved| ensures moved[i] != moved[j] {
      var f := (k: int) requires 0 <= k < |moved| =>
        if k < |a| then k else if k == |a| then |a| + |b| else if k <= |a| + |b| then k - 1 else k;
      assert moved[i] == all[f(i)] && moved[j] == all[f(j)];
    }
  }

  /** `klass.new(row).value` for every exposed computed attribute, in order: each value is
      stored under the attribute's name, and the next one sees the row with it. */
  function WithComputed(row: Row, computed: seq<string>, compute: (string, Row) -> Value): Row
    decreases |computed|
  {
    if |computed| == 0 then row else WithComputed(row[computed[0] := compute(computed[0], row)], computed[1..], compute)
  }

  /** `Array(groups[id])`: the children of `id` as Hash values, none when it has no group. */
  function ChildrenOf(groups: map<Value, seq<Row>>, id: Value): (v: Value)
    ensures v.List? && |v.items| == (if id in groups then |groups[id]| else 0)
    ensures id in groups ==> forall i :: 0 <= i < |groups[id]| ==> v.items[i] == RowValue(groups[id][i])
  {
    if id in groups then List(seq(|groups[id]|, i requires 0 <= i < |groups[id]| => RowValue(groups[id][i]))) else List([])
  }

  /** `row[att[:name]] = Array(rows[row["id"]])` for every included attribute, in order. */
  function WithIncluded(row: Row, included: seq<(string, map<Value, seq<Row>>)>): Row
    decreases |included|
  {
    if |included| == 0 then row
    else WithIncluded(row[included[0].0 := ChildrenOf(included[0].1, Get(row, "id"))], included[1..])
  }

  /** `row.delete_if { |key, _| !expose.include?(key) }`. */
  function Prune(row: Row, expose: seq<string>): (r: Row)
    ensures forall k :: k in r <==> k in row && k in expose
    ensures forall k :: k in r ==> r[k] == row[k]
  {
    map k | k in row && k in expose :: row[k]
  }

  /** A result row: computed values, then included children, then pruning. */
  function AssembleRow(row: Row, plan: Plan, expose: seq<string>, compute: (string, Row) -> Value): Row {
    Prune(WithIncluded(WithComputed(row, plan.computed, compute), plan.included), expose)
  }

  /** What `results` returns, from the rows the select list fetched. */
  function LegacyResults(attrs: seq<Attribute>, expose: seq<string>, data: map<string, IncludeRequest>, rows: seq<Row>,
                         children: ChildQuery -> seq<Row>, compute: (string, Row) -> Value): Result<seq<Row>>
  {
    var plan :- PlanFrom(Plan([], []), expose, AttributeMap(attrs), data, rows, children);
    Ok(seq(|rows|, i requires 0 <= i < |rows| => AssembleRow(rows[i], plan, expose, compute)))
  }

  lemma {:induction false} WithComputedSpec(row: Row, computed: seq<string>, compute: (string, Row) -> Value)
    ensures forall k :: k in WithComputed(row, computed, compute) <==> k in row || k in computed
    ensures forall k :: k !in computed && k in row ==> WithComputed(row, computed, compute)[k] == row[k]
    decreases |computed|
  {
    if |computed| > 0 {
      WithComputedSpec(row[computed[0] := compute(computed[0], row)], computed[1..], compute);
    }
  }

  lemma {:induction false} WithIncludedSpec(row: Row, included: seq<(string, map<Value, seq<Row>>)>)
    requires NoDup(EntryKeys(included)) && "id" !in EntryKeys(included)
    ensures forall k :: k in WithIncluded(row, included) <==> k in row || k in EntryKeys(included)
    ensures forall k :: k !in EntryKeys(included) && k in row ==> WithIncluded(row, included)[k] == row[k]
    ensures forall e :: e in included ==> WithIncluded(row, included)[e.0] == ChildrenOf(e.1, Get(row, "id"))
    decreases |included|
  {
    if |included| > 0 {
      var names := EntryKeys(included);
      assert EntryKeys(included[1..]) == names[1..];
      assert names[0] !in names[1..] by {
        forall i | 0 <= i < |names[1..]| ensures names[1..][i] != names[0] {
          assert names[1..][i] == names[i + 1];
        }
      }
      var row' := row[included[0].0 := ChildrenOf(included[0].1, Get(row, "id"))];
      assert Get(row', "id") == Get(row, "id");
      WithIncludedSpec(row', included[1..]);
      forall e | e in included ensures WithIncluded(row, included)[e.0] == ChildrenOf(e.1, Get(row, "id")) {
        if e != included[0] {
          var i :| 0 <= i < |included| && included[i] == e;
          assert included[1..][i - 1] == e;
        }
      }
    }
  }

  /** Every assembled row holds only exposed names; an exposed included attribute holds the
      children grouped under the row's `"id"`, an exposed computed attribute a value, and any
      other exposed column of the fetched row is kept as fetched. */
  lemma AssembleRowSpec(row: Row, plan: Plan, expose: seq<string>, compute: (string, Row) -> Value)
    requires NoDup(plan.computed + EntryKeys(plan.included))
    requires "id" !in plan.computed && "id" !in EntryKeys(plan.included)
    ensures var r := AssembleRow(row, plan, expose, compute);
      forall k :: k in r ==> k in expose
    ensures var r := AssembleRow(row, plan, expose, compute);
      forall e :: e in plan.included && e.0 in expose ==> e.0 in r && r[e.0] == ChildrenOf(e.1, Get(row, "id"))
    ensures var r := AssembleRow(row, plan, expose, compute);
      forall c :: c in plan.computed && c in expose ==> c in r
    ensures var r := AssembleRow(row, plan, expose, compute);
      forall k :: k in row && k in expose && k !in plan.computed && k !in EntryKeys(plan.included) ==> k in r && r[k] == row[k]
  {
    PlanKeysApart(plan);
    var rc := WithComputed(row, plan.computed, compute);
    WithComputedSpec(row, plan.computed, compute);
    WithIncludedSpec(rc, plan.included);
    assert Get(rc, "id") == Get(row, "id");
    forall c | c in plan.computed ensures c in WithIncluded(rc, plan.included) {
    }
  }

  /** A plan whose names are duplicate-free has duplicate-free included names, none of them
      computed. */
  lemma PlanKeysApart(plan: Plan)
    requires NoDup(plan.computed + EntryKeys(plan.included))
    ensures NoDup(EntryKeys(plan.included))
    ensures forall e :: e in plan.included ==> e.0 !in plan.computed && e.0 in EntryKeys(plan.included)
  {
    var all := plan.computed + EntryKeys(plan.included);
    forall i, j | 0 <= i < j < |EntryKeys(plan.included)|
      ensures EntryKeys(plan.included)[i] != EntryKeys(plan.included)[j]
    {
      assert all[|plan.computed| + i] == EntryKeys(plan.included)[i];
      assert all[|plan.computed| + j] == EntryKeys(plan.included)[j];
    }
    forall e | e in plan.included ensures e.0 !in plan.computed && e.0 in EntryKeys(plan.included) {
      var i :| 0 <= i < |plan.included| && plan.included[i] == e;
      assert EntryKeys(plan.included)[i] == e.0;
      forall j | 0 <= j < |plan.computed| ensures plan.computed[j] != e.0 {
        assert all[j] == plan.computed[j] && all[|plan.computed| + i] == e.0;
      }
    }
  }

  /** A datasource over an ActiveRecord scope, with its request state. */
  class LegacyDatasource {
    const attributes: seq<Attribute>
    const scope: ActiveRecordAdapter.Scope
    var exposeAttributes: seq<string>
    var selectAttributes: seq<string>
    var datasourceData: map<string, IncludeRequest>

    ghost predicate Valid()
      reads this
    {
      NoDup(exposeAttributes) && NoDup(selectAttributes)
    }

    /** `new(scope)`: nothing exposed or selected yet. */
    constructor (registry: LegacyRegistry, scope: ActiveRecordAdapter.Scope)
      ensures Valid() && attributes == registry.attributes && this.scope == scope
      ensures exposeAttributes == [] && selectAttributes == [] && datasourceData == map[]
    {
      attributes := registry.attributes;
      this.scope := scope;
      exposeAttributes, selectAttributes, datasourceData := [], [], map[];
    }

    /** `check_table_join!(name, att)`: some join of the scope must match the attribute's name;
        `name` only appears in the message. */
    function CheckTableJoin(name: string, attName: string): (r: Result<()>)
      ensures r.Ok? <==> exists j :: j in scope.joins && ArJoinMatches(j, attName)
      ensures r.Err? ==> r.error == NotJoined(name, attName)
    {
      EnsureArJoin(scope.joins, name, attName)
    }

    /** `append_select_value(name)`: pushed unless already there. */
    method AppendSelectValue(name: string)
      modifies this`selectAttributes
      ensures selectAttributes == AppendUnique(old(selectAttributes), name)
    {
      if name !in selectAttributes {
        selectAttributes := selectAttributes + [name];
      }
    }

    /** Every value of `names` appended in turn. */
    method AppendSelectValues(names: seq<string>)
      modifies this`selectAttributes
      ensures selectAttributes == AppendAll(old(selectAttributes), names)
    {
      var j := 0;
      while j < |names|
        invariant 0 <= j <= |names|
        invariant selectAttributes == AppendAll(old(selectAttributes), names[..j])
      {
        AppendAllStep(old(selectAttributes), names, j);
        AppendSelectValue(names[j]);
        j := j + 1;
      }
      assert names[..j] == names;
    }

    /** The join checks of one attribute's dependency tables other than the scope's own, in
        order; the first failure raises. */
    method CheckTableJoins(tables: seq<string>, attName: string) returns (r: Result<()>)
      ensures r == CheckTables(tables, scope.tableName, {}, attName, ActiveRecordAdapter.Joined(scope))
    {
      var j := 0;
      while j < |tables|
        invariant 0 <= j <= |tables|
        invariant CheckTables(tables, scope.tableName, {}, attName, ActiveRecordAdapter.Joined(scope)) ==
          CheckTables(tables[j..], scope.tableName, {}, attName, ActiveRecordAdapter.Joined(scope))
      {
        DropCons(tables, j);
        if tables[j] != scope.tableName {
          var c := CheckTableJoin(tables[j], attName);
          if c.Err? {
            return c;
          }
        }
        j := j + 1;
      }
      r := Ok(());
    }

    /** What one exposed entry appends: its column, its dependency columns (after the join
        checks of its other tables), or its expression (before them). */
    method AppendContribution(att: Attribute) returns (r: Result<()>)
      modifies this`selectAttributes
      ensures var c := Contribution(att, scope.tableName, {}, ActiveRecordAdapter.Joined(scope));
        (r.Ok? <==> c.Ok?) && (r.Ok? ==> selectAttributes == AppendAll(old(selectAttributes), c.value)) &&
        (r.Err? ==> r.error == c.error)
      ensures |old(selectAttributes)| <= |selectAttributes| && selectAttributes[..|old(selectAttributes)|] == old(selectAttributes)
      ensures NoDup(old(selectAttributes)) ==> NoDup(selectAttributes)
    {
      var table := scope.tableName;
      match att.kind {
        case Plain =>
          AppendSelectValue(table + "." + att.name);
          assert AppendAll(old(selectAttributes), [table + "." + att.name]) == AppendAll(selectAttributes, []);
        case Computed(deps) =>
          r := CheckTableJoins(TablesOf(deps), att.name);
          if r.Err? {
            return;
          }
          AppendSelectValues(DependencyColumns(deps, {}));
          AppendAllProperties(old(selectAttributes), DependencyColumns(deps, {}));
        case Query(tables, selectValue) =>
          AppendSelectValue("(" + selectValue + ") as " + att.name);
          assert AppendAll(old(selectAttributes), ["(" + selectValue + ") as " + att.name]) == AppendAll(selectAttributes, []);
          r := CheckTableJoins(tables, att.name);
          return;
        case Included(_, _, _) =>
      }
      r := Ok(());
    }

    /** `append_required_select_values`: `"<table>.id"`, then every exposed entry's contribution in
        registry order. A failing check raises, leaving what was appended so far. */
    method AppendRequiredSelectValues() returns (r: Result<()>)
      modifies this`selectAttributes
      ensures var c := CompileFrom(AppendUnique(old(selectAttributes), scope.tableName + ".id"), attributes, exposeAttributes,
                                   scope.tableName, {}, ActiveRecordAdapter.Joined(scope));
        (r.Ok? <==> c.Ok?) && (r.Ok? ==> selectAttributes == c.value) && (r.Err? ==> r.error == c.error)
      ensures |old(selectAttributes)| <= |selectAttributes| && selectAttributes[..|old(selectAttributes)|] == old(selectAttributes)
      ensures NoDup(old(selectAttributes)) ==> NoDup(selectAttributes)
    {
      var table := scope.tableName;
      ghost var joined := ActiveRecordAdapter.Joined(scope);
      ghost var spec := CompileFrom(AppendUnique(old(selectAttributes), table + ".id"), attributes, exposeAttributes, table, {}, joined);
      AppendSelectValue(table + ".id");
      var i := 0;
      while i < |attributes|
        invariant 0 <= i <= |attributes|
        invariant spec == CompileFrom(selectAttributes, attributes[i..], exposeAttributes, table, {}, joined)
        invariant |old(selectAttributes)| <= |selectAttributes| && selectAttributes[..|old(selectAttributes)|] == old(selectAttributes)
        invariant NoDup(old(selectAttributes)) ==> NoDup(selectAttributes)
      {
        DropCons(attributes, i);
        ghost var before := selectAttributes;
        if attributes[i].name in exposeAttributes {
          r := AppendContribution(attributes[i]);
          if r.Err? {
            return;
          }
        }
        assert selectAttributes[..|old(selectAttributes)|] == before[..|old(selectAttributes)|];
        i := i + 1;
      }
      r := Ok(());
    }

    /** One Hash argument of `select`: `datasource_data[k] = v` for each entry, in order. */
    method StoreEntriesInPlace(entries: seq<(string, IncludeRequest)>)
      modifies this`datasourceData
      ensures datasourceData == StoreEntries(old(datasourceData), entries)
    {
      var j := 0;
      while j < |entries|
        invariant 0 <= j <= |entries|
        invariant StoreEntries(datasourceData, entries[j..]) == StoreEntries(old(datasourceData), entries)
      {
        DropCons(entries, j);
        datasourceData := datasourceData[entries[j].0 := entries[j].1];
        j := j + 1;
      }
    }

    /** The arguments of `select` read in order: Hash entries are recorded in the datasource
        data, and the names to expose are returned. */
    method RecordArgs(args: seq<SelectArg>) returns (names: seq<string>)
      modifies this`datasourceData
      ensures names == ArgNames(args) && datasourceData == StoreData(old(datasourceData), args)
    {
      names := [];
      var i := 0;
      while i < |args|
        invariant 0 <= i <= |args|
        invariant names + ArgNames(args[i..]) == ArgNames(args)
        invariant StoreData(old(datasourceData), args) == StoreData(datasourceData, args[i..])
      {
        ArgsUnfold(datasourceData, args, i);
        var arg := args[i];
        var keys := if arg.Name? then [arg.name] else EntryKeys(arg.entries);
        if arg.Data? {
          StoreEntriesInPlace(arg.entries);
        }
        AppendAssoc(names, keys, ArgNames(args[i + 1..]));
        names := names + keys;
        i := i + 1;
      }
      assert args[i..] == [];
    }

    /** `select(*names)`: Hash arguments record their data and expose their keys; the exposed
        list becomes the order-keeping, duplicate-free union of the old one and the new names;
        then the select list is extended. */
    method Select(args: seq<SelectArg>) returns (r: Result<()>)
      requires Valid()
      modifies this`exposeAttributes, this`selectAttributes, this`datasourceData
      ensures Valid()
      ensures datasourceData == StoreData(old(datasourceData), args)
      ensures exposeAttributes == Uniq(old(exposeAttributes) + ArgNames(args))
      ensures |old(exposeAttributes)| <= |exposeAttributes| && exposeAttributes[..|old(exposeAttributes)|] == old(exposeAttributes)
      ensures forall n :: n in exposeAttributes <==> n in old(exposeAttributes) || n in ArgNames(args)
      ensures var c := CompileFrom(AppendUnique(old(selectAttributes), scope.tableName + ".id"), attributes, exposeAttributes,
                                   scope.tableName, {}, ActiveRecordAdapter.Joined(scope));
        (r.Ok? <==> c.Ok?) && (r.Ok? ==> selectAttributes == c.value) && (r.Err? ==> r.error == c.error)
      ensures |old(selectAttributes)| <= |selectAttributes| && selectAttributes[..|old(selectAttributes)|] == old(selectAttributes)
    {
      var names := RecordArgs(args);
      exposeAttributes := Uniq(exposeAttributes + names);
      UniqKeepsPrefix(old(exposeAttributes), names);
      r := AppendRequiredSelectValues();
    }

    /** `results`: the rows the select list fetches, each with its computed values and included
        children, pruned to the exposed names. Rows are rebuilt rather than updated in place. */
    method Results(fetch: seq<string> -> seq<Row>, children: ChildQuery -> seq<Row>, compute: (string, Row) -> Value)
      returns (r: Result<seq<Row>>)
      ensures r == LegacyResults(attributes, exposeAttributes, datasourceData, fetch(selectAttributes), children, compute)
      ensures r.Ok? ==> |r.value| == |fetch(selectAttributes)|
      ensures r.Ok? ==> forall i, k :: 0 <= i < |r.value| && k in r.value[i] ==> k in exposeAttributes
    {
      var rows := fetch(selectAttributes);
      var expose := exposeAttributes;
      var amap := AttributeMap(attributes);
      var computed: seq<string> := [];
      var included: seq<(string, map<Value, seq<Row>>)> := [];
      var i := 0;
      while i < |exposeAttributes|
        invariant 0 <= i <= |exposeAttributes|
        invariant PlanFrom(Plan([], []), exposeAttributes, amap, datasourceData, rows, children) ==
          PlanFrom(Plan(computed, included), exposeAttributes[i..], amap, datasourceData, rows, children)
      {
        var name := exposeAttributes[i];
        DropCons(exposeAttributes, i);
        if name !in amap {
          return Err(NoMethodError("[]"));
        }
        match amap[name].kind {
          case Computed(_) =>
            computed := computed + [name];
          case Included(_, fk, _) =>
            if name !in datasourceData {
              return Err(NoMethodError("[]"));
            }
            var req := datasourceData[name];
            var g := IncludedRows.IncludedDatasourceRows(req.select, fk, "id", req.childTable, rows, children);
            included := included + [(name, g)];
          case _ =>
        }
        i := i + 1;
      }
      assert exposeAttributes[i..] == [];
      var plan := Plan(computed, included);
      var out: seq<Row> := [];
      var j := 0;
      while j < |rows|
        invariant 0 <= j <= |rows|
        invariant |out| == j && forall k :: 0 <= k < j ==> out[k] == AssembleRow(rows[k], plan, exposeAttributes, compute)
      {
        var row := rows[j];
        var c := 0;
        while c < |computed|
          invariant 0 <= c <= |computed|
          invariant WithComputed(rows[j], computed, compute) == WithComputed(row, computed[c..], compute)
        {
          DropCons(computed, c);
          row := row[computed[c] := compute(computed[c], row)];
          c := c + 1;
        }
        assert computed[c..] == [];
        ghost var rc := row;
        var d := 0;
        while d < |included|
          invariant 0 <= d <= |included|
          invariant WithIncluded(rc, included) == WithIncluded(row, included[d..])
        {
          DropCons(included, d);
          row := row[included[d].0 := ChildrenOf(included[d].1, Get(row, "id"))];
          d := d + 1;
        }
        assert included[d..] == [];
        row := map k | k in row && k in exposeAttributes :: row[k];
        out := out + [row];
        j := j + 1;
      }
      assert out == seq(|rows|, k requires 0 <= k < |rows| => AssembleRow(rows[k], plan, expose, compute));
      r := Ok(out);
    }
  }

  /** When the exposed names are duplicate-free, `results` succeeds exactly when every exposed
      name is registered and every exposed included attribute has data. */
  lemma ResultsSpec(attrs: seq<Attribute>, expose: seq<string>, data: map<string, IncludeRequest>, rows: seq<Row>,
                    children: ChildQuery -> seq<Row>, compute: (string, Row) -> Value)
    requires NoDup(expose)
    ensures var amap := AttributeMap(attrs);
      var r := LegacyResults(attrs, expose, data, rows, children, compute);
      r.Ok? <==> forall n :: n in expose ==> n in amap && (amap[n].kind.Included? ==> n in data)
  {
    AttributeMapSpec(attrs);
    assert [] + EntryKeys<map<Value, seq<Row>>>([]) + expose == expose;
    PlanFromSpec(Plan([], []), expose, AttributeMap(attrs), data, rows, children);
  }

  /** When the exposed names are duplicate-free, `"id"` is neither computed nor included, and
      `results` succeeds (every exposed name registered, every exposed included attribute with
      data), each row it gives carries, for every exposed included attribute, the children grouped
      under the fetched row's `"id"`, a value for every exposed computed attribute, and every
      other exposed column as fetched. */
  lemma ResultsRowsSpec(attrs: seq<Attribute>, expose: seq<string>, data: map<string, IncludeRequest>, rows: seq<Row>,
                        children: ChildQuery -> seq<Row>, compute: (string, Row) -> Value)
    requires NoDup(expose)
    requires forall a :: a in attrs && a.name == "id" ==> !a.kind.Computed? && !a.kind.Included?
    requires forall n :: n in expose ==> n in AttributeMap(attrs) && (AttributeMap(attrs)[n].kind.Included? ==> n in data)
    ensures var amap := AttributeMap(attrs);
      var r := LegacyResults(attrs, expose, data, rows, children, compute);
      r.Ok? && forall i, n :: 0 <= i < |rows| && n in expose && amap[n].kind.Included? ==>
        n in r.value[i] &&
        r.value[i][n] == ChildrenOf(IncludedRows.IncludedDatasourceRows(data[n].select, amap[n].kind.foreignKey, "id",
                                                                        data[n].childTable, rows, children), Get(rows[i], "id"))
    ensures var amap := AttributeMap(attrs);
      var r := LegacyResults(attrs, expose, data, rows, children, compute);
      r.Ok? && forall i, n :: 0 <= i < |rows| && n in expose && amap[n].kind.Computed? ==> n in r.value[i]
    ensures var amap := AttributeMap(attrs);
      var r := LegacyResults(attrs, expose, data, rows, children, compute);
      r.Ok? && forall i, k :: (0 <= i < |rows| && k in rows[i] && k in expose && !amap[k].kind.Computed? &&
        !amap[k].kind.Included?) ==> k in r.value[i] && r.value[i][k] == rows[i][k]
  {
    var amap := AttributeMap(attrs);
    var plan := ExposedPlan(attrs, expose, data, rows, children);
    forall i | 0 <= i < |rows|
      ensures var row := AssembleRow(rows[i], plan, expose, compute);
        (forall e :: e in plan.included && e.0 in expose ==> e.0 in row && row[e.0] == ChildrenOf(e.1, Get(rows[i], "id"))) &&
        (forall c :: c in plan.computed && c in expose ==> c in row) &&
        (forall k :: k in rows[i] && k in expose && k !in plan.computed && k !in EntryKeys(plan.included) ==>
          k in row && row[k] == rows[i][k])
    {
      AssembleRowSpec(rows[i], plan, expose, compute);
    }
  }

  /** The plan `results` builds for duplicate-free exposed names that are all registered, with
      data for every included one, and with `"id"` neither computed nor included. */
  lemma ExposedPlan(attrs: seq<Attribute>, expose: seq<string>, data: map<string, IncludeRequest>, rows: seq<Row>,
                    children: ChildQuery -> seq<Row>) returns (plan: Plan)
    requires NoDup(expose)
    requires forall a :: a in attrs && a.name == "id" ==> !a.kind.Computed? && !a.kind.Included?
    requires forall n :: n in expose ==> n in AttributeMap(attrs) && (AttributeMap(attrs)[n].kind.Included? ==> n in data)
    ensures PlanFrom(Plan([], []), expose, AttributeMap(attrs), data, rows, children) == Ok(plan)
    ensures NoDup(plan.computed + EntryKeys(plan.included))
    ensures "id" !in plan.computed && "id" !in EntryKeys(plan.included)
    ensures forall n :: n in plan.computed <==> n in expose && AttributeMap(attrs)[n].kind.Computed?
    ensures forall n :: n in EntryKeys(plan.included) <==> n in expose && AttributeMap(attrs)[n].kind.Included?
    ensures forall n :: n in expose && AttributeMap(attrs)[n].kind.Included? ==>
      exists e :: e in plan.included && e.0 == n && e.1 == IncludedRows.IncludedDatasourceRows(data[n].select,
        AttributeMap(attrs)[n].kind.foreignKey, "id", data[n].childTable, rows, children)
  {
    var amap := AttributeMap(attrs);
    assert forall n :: n in amap ==> amap[n].name == n && amap[n] in attrs by {
      AttributeMapKeys(attrs);
    }
    assert [] + EntryKeys<map<Value, seq<Row>>>([]) + expose == expose;
    PlanFromSpec(Plan([], []), expose, amap, data, rows, children);
    plan := PlanFrom(Plan([], []), expose, amap, data, rows, children).value;
    assert "id" in amap ==> amap["id"] in attrs && amap["id"].name == "id";
    IncludedEntries(amap, expose, data, rows, children, plan.included);
  }

  /** Every exposed included attribute has an entry of the included list holding its rows. */
  lemma IncludedEntries(amap: map<string, Attribute>, expose: seq<string>, data: map<string, IncludeRequest>,
                        rows: seq<Row>, children: ChildQuery -> seq<Row>, included: seq<(string, map<Value, seq<Row>>)>)
    requires forall n :: n in EntryKeys(included) <==> n in expose && n in amap && amap[n].kind.Included?
    requires forall e :: e in included ==>
      e.0 in data && e.0 in amap && amap[e.0].kind.Included? &&
      e.1 == IncludedRows.IncludedDatasourceRows(data[e.0].select, amap[e.0].kind.foreignKey, "id", data[e.0].childTable, rows, children)
    ensures forall n :: n in expose && n in amap && amap[n].kind.Included? ==>
      n in data &&
      exists e :: e in included && e.0 == n && e.1 == IncludedRows.IncludedDatasourceRows(data[n].select,
        amap[n].kind.foreignKey, "id", data[n].childTable, rows, children)
  {
    forall n | n in expose && n in amap && amap[n].kind.Included?
      ensures exists e :: e in included && e.0 == n && e.1 == IncludedRows.IncludedDatasourceRows(data[n].select,
        amap[n].kind.foreignKey, "id", data[n].childTable, rows, children)
    {
      var e := IncludedEntry(included, n);
    }
  }

  /** An entry of the included list under a name the list holds. */
  lemma IncludedEntry(included: seq<(string, map<Value, seq<Row>>)>, n: string) returns (e: (string, map<Value, seq<Row>>))
    requires n in EntryKeys(included)
    ensures e in included && e.0 == n
  {
    var k :| 0 <= k < |included| && EntryKeys(included)[k] == n;
    e := included[k];
  }
}
