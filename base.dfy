/** `Datasource::Base`: the request state of a datasource (the exposed attributes and the
    association selections), `select` and `update_dependencies`, which pull in what a newly
    exposed attribute depends on, the select list, `can_upgrade?`, the loader batching of
    `results`, and the class-level helpers `group_by_column` and `reflection_select`. */
module Base {
  import opened Values
  import opened Registry
  import opened Grouping
  import opened JoinCheck
  import SelectCompiler
  import Loaders

  /** One argument of `select`: an attribute name, or a Hash of association selections. */
  datatype SelectArg = Name(name: string) | Assoc(pairs: seq<(string, Value)>)

  /** The fixed parts of the failure message for an unknown name; kept as constants so that
      proofs about the message do not unfold the text. */
  const MissingHead := "attribute or association "
  const DoesNotExist := " doesn't exist for "
  const ForgotComputed := ", did you forget to call \"computed :"
  const MissingTail := ", <dependencies>\" in your datasource_module?"

  /** The message of the failure `select` raises for an unknown name. */
  function MissingMessage(name: string, modelName: string): string {
    MissingHead + name + DoesNotExist + modelName + ForgotComputed + name + MissingTail
  }

  /** `select(*columns)`: one name argument per column. */
  function NameArgs(columns: seq<string>): (r: seq<SelectArg>)
    ensures |r| == |columns| && forall i :: 0 <= i < |columns| ==> r[i] == Name(columns[i])
  {
    seq(|columns|, i requires 0 <= i < |columns| => Name(columns[i]))
  }

  /** The column list of a dependency entry as the Array of Symbols it is given as. */
  function Symbols(columns: seq<string>): (r: seq<Value>)
    ensures |r| == |columns| && forall i :: 0 <= i < |columns| ==> r[i] == Sym(columns[i])
  {
    seq(|columns|, i requires 0 <= i < |columns| => Sym(columns[i]))
  }

  /** `@expose_associations[name] || []`. */
  function SelectedFor(assocs: map<string, seq<Value>>, name: string): seq<Value> {
    if name in assocs then assocs[name] else []
  }

  ghost predicate Prefix<T>(a: seq<T>, b: seq<T>) {
    |a| <= |b| && b[..|a|] == a
  }

  lemma PrefixTrans<T>(a: seq<T>, b: seq<T>, c: seq<T>)
    requires Prefix(a, b) && Prefix(b, c)
    ensures Prefix(a, c)
  {
    assert c[..|a|] == c[..|b|][..|a|];
  }

  /** Every selection recorded in `a` is still recorded in `b`. */
  ghost predicate Grows(a: map<string, seq<Value>>, b: map<string, seq<Value>>) {
    forall k :: k in a ==> k in b && forall v :: v in a[k] ==> v in b[k]
  }

  lemma GrowsTrans(a: map<string, seq<Value>>, b: map<string, seq<Value>>, c: map<string, seq<Value>>)
    requires Grows(a, b) && Grows(b, c)
    ensures Grows(a, c)
  {
  }

  /** The names of the registered attributes not yet exposed. */
  ghost function Unexposed(attrs: seq<Attribute>, expose: seq<string>): set<string> {
    set a | a in attrs && a.name !in expose :: a.name
  }

  lemma SubsetCard<T>(a: set<T>, b: set<T>)
    requires a <= b
    ensures |a| <= |b|
    decreases b
  {
    if a != {} {
      var x :| x in a;
      SubsetCard(a - {x}, b - {x});
    }
  }

  /** Exposing more shrinks the unexposed names, strictly when a registered name was newly
      exposed. */
  lemma UnexposedShrinks(attrs: seq<Attribute>, e1: seq<string>, e2: seq<string>)
    requires Prefix(e1, e2)
    ensures Unexposed(attrs, e2) <= Unexposed(attrs, e1)
    ensures |Unexposed(attrs, e2)| <= |Unexposed(attrs, e1)|
    ensures (exists a :: a in attrs && a.name in e2 && a.name !in e1) ==>
      |Unexposed(attrs, e2)| < |Unexposed(attrs, e1)|
  {
    forall n | n in e1 ensures n in e2 {
      var i :| 0 <= i < |e1| && e1[i] == n;
      assert e2[i] == n;
    }
    SubsetCard(Unexposed(attrs, e2), Unexposed(attrs, e1));
    if exists a :: a in attrs && a.name in e2 && a.name !in e1 {
      var a :| a in attrs && a.name in e2 && a.name !in e1;
      assert a.name in Unexposed(attrs, e1) && a.name !in Unexposed(attrs, e2);
      SubsetCard(Unexposed(attrs, e2), Unexposed(attrs, e1) - {a.name});
    }
  }

  /** A dependency entry has been selected: the scope's own columns are exposed attributes, any
      other key is an association selection holding every column. */
  ghost predicate DepSelected(d: Dependency, scopeTable: string, expose: seq<string>, assocs: map<string, seq<Value>>) {
    if d.table == scopeTable then forall c :: c in d.columns ==> c in expose
    else d.table in assocs && forall c :: c in d.columns ==> Sym(c) in assocs[d.table]
  }

  /** An association selection has been recorded. */
  ghost predicate AssocSelected(p: (string, Value), assocs: map<string, seq<Value>>) {
    p.0 in assocs && forall v :: v in ArrayOf(p.1) ==> v in assocs[p.0]
  }

  lemma SelectionsPersist(e1: seq<string>, a1: map<string, seq<Value>>, e2: seq<string>, a2: map<string, seq<Value>>)
    requires Prefix(e1, e2) && Grows(a1, a2)
    ensures forall n :: n in e1 ==> n in e2
    ensures forall d, t :: DepSelected(d, t, e1, a1) ==> DepSelected(d, t, e2, a2)
    ensures forall p :: AssocSelected(p, a1) ==> AssocSelected(p, a2)
  {
    forall n | n in e1 ensures n in e2 {
      var i :| 0 <= i < |e1| && e1[i] == n;
      assert e2[i] == n;
    }
  }

  /** One `select` argument has taken effect: its name is exposed, or each of its association
      selections is of a known association and recorded. */
  ghost predicate ArgDone(a: SelectArg, associations: set<string>, expose: seq<string>, assocs: map<string, seq<Value>>) {
    match a
    case Name(n) => n in expose
    case Assoc(pairs) => forall p :: p in pairs ==> p.0 in associations && AssocSelected(p, assocs)
  }

  lemma ArgDonePersists(a: SelectArg, associations: set<string>, e1: seq<string>, a1: map<string, seq<Value>>,
                        e2: seq<string>, a2: map<string, seq<Value>>)
    requires Prefix(e1, e2) && Grows(a1, a2) && ArgDone(a, associations, e1, a1)
    ensures ArgDone(a, associations, e2, a2)
  {
    SelectionsPersist(e1, a1, e2, a2);
  }

  /** Every argument of `args` has taken effect. */
  ghost predicate ArgsDone(args: seq<SelectArg>, associations: set<string>, expose: seq<string>, assocs: map<string, seq<Value>>) {
    forall a :: a in args ==> ArgDone(a, associations, expose, assocs)
  }

  lemma ArgsPersist(args: seq<SelectArg>, associations: set<string>, e1: seq<string>, a1: map<string, seq<Value>>,
                    e2: seq<string>, a2: map<string, seq<Value>>)
    requires Prefix(e1, e2) && Grows(a1, a2) && ArgsDone(args, associations, e1, a1)
    ensures ArgsDone(args, associations, e2, a2)
  {
    forall a | a in args ensures ArgDone(a, associations, e2, a2) {
      ArgDonePersists(a, associations, e1, a1, e2, a2);
    }
  }

  lemma ArgsDoneSnoc(args: seq<SelectArg>, i: int, associations: set<string>, expose: seq<string>, assocs: map<string, seq<Value>>)
    requires 0 <= i < |args|
    requires ArgsDone(args[..i], associations, expose, assocs) && ArgDone(args[i], associations, expose, assocs)
    ensures ArgsDone(args[..i + 1], associations, expose, assocs)
  {
    TakeSnoc(args, i);
  }

  /** What exposing an attribute requires has happened: a computed attribute's dependency
      entries are all selected, and a query attribute is joined whenever it names a table other
      than the scope's. */
  ghost predicate Settled(a: Attribute, scopeTable: string, joined: string -> bool,
                          expose: seq<string>, assocs: map<string, seq<Value>>) {
    && (a.kind.Computed? ==> forall d :: d in a.kind.depends ==> DepSelected(d, scopeTable, expose, assocs))
    && (a.kind.Query? ==> forall t :: t in a.kind.tables && t != scopeTable ==> joined(a.name))
  }

  /** Every attribute exposed in `expose` but not in `before` is settled. */
  ghost predicate SettledSince(attrs: seq<Attribute>, scopeTable: string, joined: string -> bool, before: seq<string>,
                               expose: seq<string>, assocs: map<string, seq<Value>>) {
    forall a :: a in attrs && a.name in expose && a.name !in before ==> Settled(a, scopeTable, joined, expose, assocs)
  }

  lemma SettledPersists(a: Attribute, scopeTable: string, joined: string -> bool,
                        e1: seq<string>, a1: map<string, seq<Value>>, e2: seq<string>, a2: map<string, seq<Value>>)
    requires Prefix(e1, e2) && Grows(a1, a2) && Settled(a, scopeTable, joined, e1, a1)
    ensures Settled(a, scopeTable, joined, e2, a2)
  {
    SelectionsPersist(e1, a1, e2, a2);
  }

  /** Settled attributes stay settled as selections grow, so two settled stretches make one. */
  lemma SettledSinceTrans(attrs: seq<Attribute>, scopeTable: string, joined: string -> bool, e0: seq<string>,
                          e1: seq<string>, a1: map<string, seq<Value>>, e2: seq<string>, a2: map<string, seq<Value>>)
    requires Prefix(e1, e2) && Grows(a1, a2)
    requires SettledSince(attrs, scopeTable, joined, e0, e1, a1)
    requires SettledSince(attrs, scopeTable, joined, e1, e2, a2)
    ensures SettledSince(attrs, scopeTable, joined, e0, e2, a2)
  {
    SelectionsPersist(e1, a1, e2, a2);
  }

  /** Every attribute of `attrs` among `names` is settled. */
  ghost predicate SettledAmong(attrs: seq<Attribute>, names: seq<string>, scopeTable: string, joined: string -> bool,
                               expose: seq<string>, assocs: map<string, seq<Value>>) {
    forall a :: a in attrs && a.name in names ==> Settled(a, scopeTable, joined, expose, assocs)
  }

  lemma SettledAmongPersists(attrs: seq<Attribute>, names: seq<string>, scopeTable: string, joined: string -> bool,
                             e1: seq<string>, a1: map<string, seq<Value>>, e2: seq<string>, a2: map<string, seq<Value>>)
    requires Prefix(e1, e2) && Grows(a1, a2)
    requires SettledAmong(attrs, names, scopeTable, joined, e1, a1)
    ensures SettledAmong(attrs, names, scopeTable, joined, e2, a2)
  {
    forall a | a in attrs && a.name in names ensures Settled(a, scopeTable, joined, e2, a2) {
      SettledPersists(a, scopeTable, joined, e1, a1, e2, a2);
    }
  }

  lemma SettledAmongSnoc(attrs: seq<Attribute>, i: int, names: seq<string>, scopeTable: string, joined: string -> bool,
                         expose: seq<string>, assocs: map<string, seq<Value>>)
    requires 0 <= i < |attrs|
    requires SettledAmong(attrs[..i], names, scopeTable, joined, expose, assocs)
    requires attrs[i].name in names ==> Settled(attrs[i], scopeTable, joined, expose, assocs)
    ensures SettledAmong(attrs[..i + 1], names, scopeTable, joined, expose, assocs)
  {
    TakeSnoc(attrs, i);
  }

  /** What the `names.each` loop of `select` pushes onto `@expose_attributes` (and onto
      `newly_exposed_attributes`) for its first `i` arguments when they are all known: each name
      argument not already exposed, once, in the order of its first occurrence. */
  function NewNames(expose: seq<string>, args: seq<SelectArg>, i: nat): seq<string>
    requires i <= |args|
    decreases i
  {
    if i == 0 then []
    else
      var prev := NewNames(expose, args, i - 1);
      var a := args[i - 1];
      if a.Name? && a.name !in expose && a.name !in prev then prev + [a.name] else prev
  }

  lemma {:induction false} NewNamesUpTo(expose: seq<string>, args: seq<SelectArg>, i: nat)
    requires i <= |args|
    ensures NoDup(NewNames(expose, args, i))
    ensures forall n :: n in NewNames(expose, args, i) <==> (exists j :: 0 <= j < i && args[j] == Name(n)) && n !in expose
    decreases i
  {
    if i > 0 {
      NewNamesUpTo(expose, args, i - 1);
      var prev := NewNames(expose, args, i - 1);
      forall n
        ensures n in NewNames(expose, args, i) <==> (exists j :: 0 <= j < i && args[j] == Name(n)) && n !in expose
      {
        if args[i - 1] == Name(n) {
          assert n in NewNames(expose, args, i) <==> n !in expose;
        } else {
          assert n in NewNames(expose, args, i) <==> n in prev;
          assert (exists j :: 0 <= j < i && args[j] == Name(n)) <==> (exists j :: 0 <= j < i - 1 && args[j] == Name(n));
        }
      }
    }
  }

  /** The names pushed are exactly the name arguments not already exposed, each once. */
  lemma NewNamesSpec(expose: seq<string>, args: seq<SelectArg>)
    ensures NoDup(NewNames(expose, args, |args|))
    ensures forall n :: n in NewNames(expose, args, |args|) <==> Name(n) in args && n !in expose
  {
    NewNamesUpTo(expose, args, |args|);
  }

  /** Nothing is pushed when every argument names an exposed attribute. */
  lemma {:induction false} NewNamesNone(expose: seq<string>, args: seq<SelectArg>, i: nat)
    requires i <= |args|
    requires forall a :: a in args ==> a.Name? && a.name in expose
    ensures NewNames(expose, args, i) == []
    decreases i
  {
    if i > 0 {
      NewNamesNone(expose, args, i - 1);
      assert args[i - 1] in args;
    }
  }

  /** What the outcome of the argument loop of `select` (it stopped at argument `k`, `ok` when
      it ran to the end, having pushed `newly` onto `before`) implies for particular arguments:
      an unknown first name stops it before anything is pushed, arguments that are all exposed
      names push nothing and cannot fail, and a single new known name is pushed alone. */
  lemma ExposeOutcome(attributes: seq<Attribute>, associations: set<string>, args: seq<SelectArg>,
                      before: seq<string>, after: seq<string>, assocs: map<string, seq<Value>>,
                      newly: seq<string>, k: nat, ok: bool)
    requires forall n :: n in after ==> FindAttribute(attributes, n).Some?
    requires after == before + newly && k <= |args| && newly == NewNames(before, args, k) && (ok ==> k == |args|)
    requires ArgsDone(args[..k], associations, after, assocs)
    requires !ok ==> k < |args| && !(args[k].Name? && FindAttribute(attributes, args[k].name).Some?)
    ensures ok ==> ArgsDone(args, associations, after, assocs)
    ensures |args| > 0 && args[0].Name? && FindAttribute(attributes, args[0].name).None? ==> !ok && k == 0 && after == before
    ensures forall j :: 0 <= j < |args| && args[j].Name? && FindAttribute(attributes, args[j].name).None? ==>
      !ok && k <= j && ArgsDone(args[..k], associations, after, assocs)
    ensures (forall a :: a in args ==> a.Name? && a.name in before) ==> ok && newly == []
    ensures |args| == 1 && args[0].Name? && FindAttribute(attributes, args[0].name).Some? && args[0].name !in before ==>
      ok && newly == [args[0].name]
  {
    if k > 0 {
      assert args[0] in args[..k];
    }
    DoneNamesKnown(attributes, associations, args, after, assocs, k);
    if ok {
      assert args[..k] == args;
    } else {
      assert args[k] in args;
    }
    if forall a :: a in args ==> a.Name? && a.name in before {
      NewNamesNone(before, args, k);
    }
  }

  /** Every name argument the loop got past names a registered attribute. */
  lemma DoneNamesKnown(attributes: seq<Attribute>, associations: set<string>, args: seq<SelectArg>,
                       after: seq<string>, assocs: map<string, seq<Value>>, k: nat)
    requires forall n :: n in after ==> FindAttribute(attributes, n).Some?
    requires k <= |args| && ArgsDone(args[..k], associations, after, assocs)
    ensures forall i :: 0 <= i < k && args[i].Name? ==> FindAttribute(attributes, args[i].name).Some?
  {
    forall i | 0 <= i < k && args[i].Name?
      ensures FindAttribute(attributes, args[i].name).Some?
    {
      assert args[i] in args[..k];
    }
  }

  /** The names pushed by the first `i` arguments are name arguments not already exposed. */
  lemma NewNamesBound(expose: seq<string>, args: seq<SelectArg>, i: nat)
    requires i <= |args|
    ensures forall n :: n in NewNames(expose, args, i) ==> Name(n) in args && n !in expose
  {
    NewNamesUpTo(expose, args, i);
  }

  /** The names of the name arguments of `select`. */
  ghost function ArgNameSet(args: seq<SelectArg>): set<string> {
    set a | a in args && a.Name? :: a.name
  }

  /** The columns a dependency entry makes `update_dependencies` select as attributes: those of
      an entry on the scope's own table. */
  ghost function DepColumns(d: Dependency, scopeTable: string): set<string> {
    if d.table == scopeTable then set c | c in d.columns else {}
  }

  /** The scope-table columns of a list of dependency entries. */
  ghost function ScopeColumns(deps: seq<Dependency>, scopeTable: string): set<string> {
    set d, c | d in deps && c in DepColumns(d, scopeTable) :: c
  }

  /** The scope-table dependency columns of one attribute: none unless it is computed. */
  ghost function OwnColumns(a: Attribute, scopeTable: string): set<string> {
    if a.kind.Computed? then ScopeColumns(a.kind.depends, scopeTable) else {}
  }

  /** The scope-table dependency columns of the computed attributes among `owners`. */
  ghost function DependencyColumns(attrs: seq<Attribute>, scopeTable: string, owners: seq<string>): set<string> {
    set a, c | a in attrs && a.name in owners && a.kind.Computed? && c in ScopeColumns(a.kind.depends, scopeTable) :: c
  }

  /** Every name exposed in `expose` but not in `before` is in `allowed` or is a scope-table
      dependency column of a computed attribute exposed in `expose`: nothing else was exposed. */
  ghost predicate Bounded(attrs: seq<Attribute>, scopeTable: string, before: seq<string>, expose: seq<string>, allowed: set<string>) {
    forall n :: n in expose && n !in before ==> n in allowed || n in DependencyColumns(attrs, scopeTable, expose)
  }

  lemma DependencyColumnsGrow(attrs: seq<Attribute>, scopeTable: string, o1: seq<string>, o2: seq<string>)
    requires forall n :: n in o1 ==> n in o2
    ensures DependencyColumns(attrs, scopeTable, o1) <= DependencyColumns(attrs, scopeTable, o2)
  {
  }

  lemma BoundedTrans(attrs: seq<Attribute>, scopeTable: string, e0: seq<string>, e1: seq<string>, e2: seq<string>,
                     a: set<string>, b: set<string>)
    requires Prefix(e1, e2)
    requires Bounded(attrs, scopeTable, e0, e1, a) && Bounded(attrs, scopeTable, e1, e2, b)
    ensures Bounded(attrs, scopeTable, e0, e2, a + b)
  {
    SelectionsPersist(e1, map[], e2, map[]);
    DependencyColumnsGrow(attrs, scopeTable, e1, e2);
  }

  /** The dependency columns of exposed owners are already allowed by the bound itself. */
  lemma BoundedAbsorb(attrs: seq<Attribute>, scopeTable: string, e0: seq<string>, e: seq<string>, a: set<string>,
                      owners: seq<string>)
    requires forall n :: n in owners ==> n in e
    requires Bounded(attrs, scopeTable, e0, e, a + DependencyColumns(attrs, scopeTable, owners))
    ensures Bounded(attrs, scopeTable, e0, e, a)
  {
    DependencyColumnsGrow(attrs, scopeTable, owners, e);
  }

  /** What the argument loop of `select` pushes is made of its name arguments. */
  lemma ExposeBounded(attrs: seq<Attribute>, scopeTable: string, args: seq<SelectArg>, before: seq<string>,
                      newly: seq<string>, k: nat)
    requires k <= |args|
    requires newly == NewNames(before, args, k)
    ensures Bounded(attrs, scopeTable, before, before + newly, ArgNameSet(args))
  {
    NewNamesBound(before, args, k);
    forall n | n in before + newly && n !in before ensures n in ArgNameSet(args) {
      assert Name(n) in args;
    }
  }

  lemma BoundedWeaken(attrs: seq<Attribute>, scopeTable: string, e0: seq<string>, e: seq<string>, a: set<string>, b: set<string>)
    requires a <= b && Bounded(attrs, scopeTable, e0, e, a)
    ensures Bounded(attrs, scopeTable, e0, e, b)
  {
  }

  lemma NameArgsNames(columns: seq<string>)
    ensures ArgNameSet(NameArgs(columns)) == set c | c in columns
  {
    forall c | c in columns ensures c in ArgNameSet(NameArgs(columns)) {
      var k :| 0 <= k < |columns| && columns[k] == c;
      assert NameArgs(columns)[k] in NameArgs(columns);
    }
  }

  lemma ScopeColumnsHas(deps: seq<Dependency>, scopeTable: string, j: int)
    requires 0 <= j < |deps|
    ensures DepColumns(deps[j], scopeTable) <= ScopeColumns(deps, scopeTable)
  {
    assert deps[j] in deps;
  }

  lemma DependencyColumnsHas(attrs: seq<Attribute>, scopeTable: string, owners: seq<string>, a: Attribute)
    requires a in attrs && a.name in owners && a.kind.Computed?
    ensures ScopeColumns(a.kind.depends, scopeTable) <= DependencyColumns(attrs, scopeTable, owners)
  {
  }

  /** A datasource instance over the registry of its class. */
  class Datasource {
    const attributes: seq<Attribute>
    const associations: set<string>
    const loaders: map<string, LoaderSpec>
    const modelName: string
    /** The scope after the class's `update_scope` block. */
    const scope: Value
    /** `adapter.primary_scope_table(self)`. */
    const scopeTable: string
    /** Whether `adapter.ensure_table_join!(self, table, att)` passes; every adapter judges by
        the attribute's name. */
    const joined: string -> bool
    var exposeAttributes: seq<string>
    var exposeAssociations: map<string, seq<Value>>

    ghost predicate Valid()
      reads this
    {
      && UniqueNames(attributes)
      && NoDup(exposeAttributes)
      && (forall n :: n in exposeAttributes ==> FindAttribute(attributes, n).Some?)
      && (forall k :: k in exposeAssociations ==> k in associations && NoDup(exposeAssociations[k]))
    }

    /** `new(scope, adapter)`: nothing exposed yet. */
    constructor (klass: DatasourceClass, scope: Value, scopeTable: string, joined: string -> bool)
      requires klass.Valid()
      ensures Valid()
      ensures attributes == klass.attributes && associations == klass.associations && loaders == klass.loaders
      ensures modelName == klass.modelName && this.scope == scope && this.scopeTable == scopeTable
      ensures this.joined == joined
      ensures exposeAttributes == [] && exposeAssociations == map[]
    {
      attributes, associations, loaders, modelName := klass.attributes, klass.associations, klass.loaders, klass.modelName;
      this.scope, this.scopeTable, this.joined := scope, scopeTable, joined;
      exposeAttributes, exposeAssociations := [], map[];
    }

    /** `select_all`: every registered attribute, in registry order. */
    method SelectAll()
      requires Valid()
      modifies this`exposeAttributes
      ensures Valid()
      ensures exposeAttributes == Names(attributes)
    {
      exposeAttributes := Names(attributes);
      forall n | n in exposeAttributes ensures FindAttribute(attributes, n).Some? {
        var i :| 0 <= i < |exposeAttributes| && exposeAttributes[i] == n;
        assert attributes[i].name == n;
      }
    }

    /** `attribute_exposed?(name)`. */
    predicate AttributeExposed(name: string)
      reads this
    {
      name in exposeAttributes
    }

    /** The name branch of `select`: a registered name not yet exposed is pushed; an exposed one
        is left where it is. */
    method ExposeName(name: string) returns (added: bool)
      requires Valid() && FindAttribute(attributes, name).Some?
      modifies this`exposeAttributes
      ensures Valid()
      ensures added <==> name !in old(exposeAttributes)
      ensures exposeAttributes == if added then old(exposeAttributes) + [name] else old(exposeAttributes)
    {
      added := name !in exposeAttributes;
      if added {
        exposeAttributes := exposeAttributes + [name];
      }
    }

    /** The Hash branch of `select` for one known association: `(list || []) + Array(sel)`, then
        `uniq!`. */
    method ExposeAssociation(name: string, sel: Value)
      requires Valid() && name in associations
      modifies this`exposeAssociations
      ensures Valid()
      ensures exposeAssociations == old(exposeAssociations)[name := Uniq(SelectedFor(old(exposeAssociations), name) + ArrayOf(sel))]
      ensures Grows(old(exposeAssociations), exposeAssociations)
      ensures AssocSelected((name, sel), exposeAssociations)
    {
      exposeAssociations := exposeAssociations[name := Uniq(SelectedFor(exposeAssociations, name) + ArrayOf(sel))];
    }

    /** The pairs of one Hash argument of `select`, in order; an unknown association raises at
        once, leaving the earlier pairs recorded. */
    method SelectAssociations(pairs: seq<(string, Value)>) returns (r: Result<()>)
      requires Valid()
      modifies this`exposeAssociations
      ensures Valid() && Grows(old(exposeAssociations), exposeAssociations)
      ensures r.Ok? <==> forall p :: p in pairs ==> p.0 in associations
      ensures r.Ok? ==> forall p :: p in pairs ==> AssocSelected(p, exposeAssociations)
      ensures r.Err? ==> exists p :: p in pairs && p.0 !in associations && r.error == DatasourceError(MissingMessage(p.0, modelName))
    {
      var j := 0;
      while j < |pairs|
        invariant 0 <= j <= |pairs|
        invariant Valid() && Grows(old(exposeAssociations), exposeAssociations)
        invariant forall k :: 0 <= k < j ==> pairs[k].0 in associations && AssocSelected(pairs[k], exposeAssociations)
      {
        if pairs[j].0 !in associations {
          assert pairs[j] in pairs;
          return Err(DatasourceError(MissingMessage(pairs[j].0, modelName)));
        }
        ghost var a0 := exposeAssociations;
        ExposeAssociation(pairs[j].0, pairs[j].1);
        SelectionsPersist(exposeAttributes, a0, exposeAttributes, exposeAssociations);
        j := j + 1;
      }
      r := Ok(());
      forall p | p in pairs ensures p.0 in associations && AssocSelected(p, exposeAssociations) {
        var k :| 0 <= k < |pairs| && pairs[k] == p;
      }
    }

    /** One argument of `select`. */
    method ExposeArg(a: SelectArg) returns (r: Result<()>, added: seq<string>)
      requires Valid()
      modifies this`exposeAttributes, this`exposeAssociations
      ensures Valid()
      ensures Prefix(old(exposeAttributes), exposeAttributes)
      ensures Grows(old(exposeAssociations), exposeAssociations)
      ensures forall n :: n in added ==> n in exposeAttributes && n !in old(exposeAttributes)
      ensures exposeAttributes == old(exposeAttributes) + added
      ensures r.Ok? ==> ArgDone(a, associations, exposeAttributes, exposeAssociations)
      ensures a.Name? && FindAttribute(attributes, a.name).None? ==>
        r == Err(DatasourceError(MissingMessage(a.name, modelName))) &&
        exposeAttributes == old(exposeAttributes) && exposeAssociations == old(exposeAssociations)
      ensures a.Name? && FindAttribute(attributes, a.name).Some? ==>
        r.Ok? && exposeAssociations == old(exposeAssociations) &&
        (a.name in old(exposeAttributes) ==> added == [] && exposeAttributes == old(exposeAttributes)) &&
        (a.name !in old(exposeAttributes) ==> added == [a.name] && exposeAttributes == old(exposeAttributes) + [a.name])
      ensures a.Assoc? ==> added == [] && exposeAttributes == old(exposeAttributes)
    {
      added := [];
      match a {
        case Name(n) =>
          if FindAttribute(attributes, n).None? {
            return Err(DatasourceError(MissingMessage(n, modelName))), added;
          }
          var isNew := ExposeName(n);
          if isNew {
            added := [n];
          }
          r := Ok(());
        case Assoc(pairs) =>
          r := SelectAssociations(pairs);
      }
    }

    /** The loop of `select` over its arguments: each name exposed once, each association
        selection recorded, the first unknown name or association raising at once. `newly` is
        what was pushed, in order. */
    method ExposeArgs(args: seq<SelectArg>) returns (r: Result<()>, newly: seq<string>, ghost k: nat)
      requires Valid()
      modifies this`exposeAttributes, this`exposeAssociations
      ensures Valid()
      ensures Prefix(old(exposeAttributes), exposeAttributes)
      ensures Grows(old(exposeAssociations), exposeAssociations)
      ensures exposeAttributes == old(exposeAttributes) + newly
      ensures k <= |args| && newly == NewNames(old(exposeAttributes), args, k) && (r.Ok? ==> r == Ok(()) && k == |args|)
      ensures ArgsDone(args[..k], associations, exposeAttributes, exposeAssociations)
      ensures r.Err? ==> k < |args| && !(args[k].Name? && FindAttribute(attributes, args[k].name).Some?)
      ensures r.Err? && args[k].Name? ==>
        r == Err(DatasourceError(MissingMessage(args[k].name, modelName))) && (k == 0 ==> exposeAssociations == old(exposeAssociations))
      ensures (forall a :: a in args ==> a.Name? && a.name in old(exposeAttributes)) ==> exposeAssociations == old(exposeAssociations)
    {
      newly := [];
      ghost var noop := forall a :: a in args ==> a.Name? && a.name in old(exposeAttributes);
      var i := 0;
      while i < |args|
        invariant 0 <= i <= |args|
        invariant Valid()
        invariant Prefix(old(exposeAttributes), exposeAttributes)
        invariant Grows(old(exposeAssociations), exposeAssociations)
        invariant exposeAttributes == old(exposeAttributes) + newly
        invariant newly == NewNames(old(exposeAttributes), args, i)
        invariant ArgsDone(args[..i], associations, exposeAttributes, exposeAssociations)
        invariant (noop || i == 0) ==> exposeAssociations == old(exposeAssociations)
      {
        r, newly := ExposeNext(args, i, old(exposeAttributes), old(exposeAssociations), newly);
        if r.Err? {
          return r, newly, i;
        }
        if noop {
          assert args[i] in args;
        }
        i := i + 1;
      }
      r, k := Ok(()), i;
    }

    /** One turn of the argument loop of `select`: argument `i` after the names `newly` that
        the earlier ones pushed. */
    method ExposeNext(args: seq<SelectArg>, i: int, ghost before: seq<string>, ghost beforeAssocs: map<string, seq<Value>>,
                      newly: seq<string>) returns (r: Result<()>, newly': seq<string>)
      requires Valid() && 0 <= i < |args|
      requires Prefix(before, exposeAttributes) && Grows(beforeAssocs, exposeAssociations)
      requires exposeAttributes == before + newly && newly == NewNames(before, args, i)
      requires ArgsDone(args[..i], associations, exposeAttributes, exposeAssociations)
      modifies this`exposeAttributes, this`exposeAssociations
      ensures Valid() && Prefix(before, exposeAttributes) && Grows(beforeAssocs, exposeAssociations)
      ensures r.Err? ==>
        newly' == newly && exposeAttributes == old(exposeAttributes) &&
        ArgsDone(args[..i], associations, exposeAttributes, exposeAssociations)
      ensures r.Ok? ==>
        exposeAttributes == before + newly' && newly' == NewNames(before, args, i + 1) &&
        ArgsDone(args[..i + 1], associations, exposeAttributes, exposeAssociations)
      ensures r.Err? ==> !(args[i].Name? && FindAttribute(attributes, args[i].name).Some?)
      ensures r.Err? && args[i].Name? ==>
        r == Err(DatasourceError(MissingMessage(args[i].name, modelName))) && exposeAssociations == old(exposeAssociations)
      ensures args[i].Name? && args[i].name in old(exposeAttributes) ==> r.Ok? && exposeAssociations == old(exposeAssociations)
    {
      ghost var e0, a0 := exposeAttributes, exposeAssociations;
      var added;
      r, added := ExposeArg(args[i]);
      PrefixTrans(before, e0, exposeAttributes);
      GrowsTrans(beforeAssocs, a0, exposeAssociations);
      ArgsPersist(args[..i], associations, e0, a0, exposeAttributes, exposeAssociations);
      if r.Err? {
        return r, newly;
      }
      AppendAssoc(before, newly, added);
      newly' := newly + added;
      ArgsDoneSnoc(args, i, associations, exposeAttributes, exposeAssociations);
    }

    /** `select(*names)`: the arguments exposed in order, the first unknown name or association
        raising at once, without `update_dependencies` running for the names exposed before it;
        otherwise the newly exposed names' dependencies are selected in turn. */
    method Select(args: seq<SelectArg>) returns (r: Result<()>)
      requires Valid()
      modifies this`exposeAttributes, this`exposeAssociations
      ensures Valid()
      ensures Prefix(old(exposeAttributes), exposeAttributes)
      ensures Grows(old(exposeAssociations), exposeAssociations)
      ensures r.Ok? ==> forall a :: a in args ==> ArgDone(a, associations, exposeAttributes, exposeAssociations)
      ensures r.Ok? ==> forall a :: a in args && a.Name? ==> FindAttribute(attributes, a.name).Some?
      ensures |args| > 0 && args[0].Name? && FindAttribute(attributes, args[0].name).None? ==>
        r == Err(DatasourceError(MissingMessage(args[0].name, modelName))) &&
        exposeAttributes == old(exposeAttributes) && exposeAssociations == old(exposeAssociations)
      ensures forall j :: 0 <= j < |args| && args[j].Name? && FindAttribute(attributes, args[j].name).None? ==> r.Err?
      ensures (forall a :: a in args ==> a.Name? && a.name in old(exposeAttributes)) ==>
        r == Ok(()) && exposeAttributes == old(exposeAttributes) && exposeAssociations == old(exposeAssociations)
      ensures |args| == 1 && args[0].Name? && FindAttribute(attributes, args[0].name).Some? && args[0].name !in old(exposeAttributes) ==>
        Prefix(old(exposeAttributes) + [args[0].name], exposeAttributes)
      ensures r.Ok? ==> SettledSince(attributes, scopeTable, joined, old(exposeAttributes), exposeAttributes, exposeAssociations)
      ensures Bounded(attributes, scopeTable, old(exposeAttributes), exposeAttributes, ArgNameSet(args))
      decreases |Unexposed(attributes, exposeAttributes)|, 0
    {
      var newly;
      ghost var k;
      r, newly, k := ExposeArgs(args);
      ExposeOutcome(attributes, associations, args, old(exposeAttributes), exposeAttributes, exposeAssociations, newly, k, r.Ok?);
      ExposeBounded(attributes, scopeTable, args, old(exposeAttributes), newly, k);
      if r.Err? || |newly| == 0 {
        return;
      }
      NewNamesBound(old(exposeAttributes), args, k);
      assert newly[0] in newly;
      UnexposedShrinks(attributes, old(exposeAttributes), exposeAttributes);
      ghost var e1, a1 := exposeAttributes, exposeAssociations;
      r := UpdateDependencies(newly);
      ArgsPersist(args, associations, e1, a1, exposeAttributes, exposeAssociations);
      PrefixTrans(old(exposeAttributes), e1, exposeAttributes);
      GrowsTrans(old(exposeAssociations), a1, exposeAssociations);
      BoundedTrans(attributes, scopeTable, old(exposeAttributes), e1, exposeAttributes,
                   ArgNameSet(args), DependencyColumns(attributes, scopeTable, newly));
      SelectionsPersist(e1, a1, exposeAttributes, exposeAssociations);
      BoundedAbsorb(attributes, scopeTable, old(exposeAttributes), exposeAttributes, ArgNameSet(args), newly);
      if r.Err? {
        return;
      }
      r := Ok(());
      assert forall a :: a in args && a.Name? ==> a.name in exposeAttributes;
      forall a | a in attributes && a.name in exposeAttributes && a.name !in old(exposeAttributes)
        ensures Settled(a, scopeTable, joined, exposeAttributes, exposeAssociations)
      {
        if a.name in e1 {
          assert a.name in newly;
        }
      }
    }

    /** `update_dependencies(names)`: in registry order, for every attribute among `names`, a
        computed attribute's dependency entries are selected (its scope-table columns as
        attributes, any other key as an association selection holding the columns), and a query
        attribute's tables other than the scope table are join-checked. */
    method UpdateDependencies(names: seq<string>) returns (r: Result<()>)
      requires Valid()
      modifies this`exposeAttributes, this`exposeAssociations
      ensures Valid()
      ensures Prefix(old(exposeAttributes), exposeAttributes)
      ensures Grows(old(exposeAssociations), exposeAssociations)
      ensures r.Ok? ==> SettledAmong(attributes, names, scopeTable, joined, exposeAttributes, exposeAssociations)
      ensures (forall a :: a in attributes && a.name in names ==>
        (a.kind.Plain? || a.kind.Included? || (a.kind.Query? && forall t :: t in a.kind.tables && t != scopeTable ==> joined(a.name))))
        ==> r.Ok?
      ensures r.Ok? ==> SettledSince(attributes, scopeTable, joined, old(exposeAttributes), exposeAttributes, exposeAssociations)
      ensures Bounded(attributes, scopeTable, old(exposeAttributes), exposeAttributes, DependencyColumns(attributes, scopeTable, names))
      decreases |Unexposed(attributes, exposeAttributes)|, 4
    {
      var i := 0;
      while i < |attributes|
        invariant 0 <= i <= |attributes|
        invariant Valid()
        invariant Prefix(old(exposeAttributes), exposeAttributes)
        invariant Grows(old(exposeAssociations), exposeAssociations)
        invariant |Unexposed(attributes, exposeAttributes)| <= |Unexposed(attributes, old(exposeAttributes))|
        invariant (forall a :: a in attributes && a.name in names ==> !a.kind.Computed?) ==>
          exposeAttributes == old(exposeAttributes) && exposeAssociations == old(exposeAssociations)
        invariant SettledAmong(attributes[..i], names, scopeTable, joined, exposeAttributes, exposeAssociations)
        invariant SettledSince(attributes, scopeTable, joined, old(exposeAttributes), exposeAttributes, exposeAssociations)
        invariant Bounded(attributes, scopeTable, old(exposeAttributes), exposeAttributes, DependencyColumns(attributes, scopeTable, names))
      {
        var att := attributes[i];
        if att.name in names {
          ghost var e0, a0 := exposeAttributes, exposeAssociations;
          r := UpdateAttribute(att);
          PrefixTrans(old(exposeAttributes), e0, exposeAttributes);
          GrowsTrans(old(exposeAssociations), a0, exposeAssociations);
          ghost var own := OwnColumns(att, scopeTable);
          BoundedTrans(attributes, scopeTable, old(exposeAttributes), e0, exposeAttributes,
                       DependencyColumns(attributes, scopeTable, names), own);
          if att.kind.Computed? {
            DependencyColumnsHas(attributes, scopeTable, names, att);
          }
          BoundedWeaken(attributes, scopeTable, old(exposeAttributes), exposeAttributes,
                        DependencyColumns(attributes, scopeTable, names) + own, DependencyColumns(attributes, scopeTable, names));
          if r.Err? {
            return;
          }
          SettledSinceTrans(attributes, scopeTable, joined, old(exposeAttributes), e0, a0, exposeAttributes, exposeAssociations);
          SettledAmongPersists(attributes[..i], names, scopeTable, joined, e0, a0, exposeAttributes, exposeAssociations);
        }
        SettledAmongSnoc(attributes, i, names, scopeTable, joined, exposeAttributes, exposeAssociations);
        i := i + 1;
      }
      r := Ok(());
      assert attributes[..i] == attributes;
    }

    /** One attribute of `update_dependencies`: a computed attribute's dependency entries are
        selected, a query attribute's tables are join-checked, any other attribute is left alone. */
    method UpdateAttribute(att: Attribute) returns (r: Result<()>)
      requires Valid() && att in attributes
      modifies this`exposeAttributes, this`exposeAssociations
      ensures Valid()
      ensures Prefix(old(exposeAttributes), exposeAttributes)
      ensures Grows(old(exposeAssociations), exposeAssociations)
      ensures |Unexposed(attributes, exposeAttributes)| <= |Unexposed(attributes, old(exposeAttributes))|
      ensures !att.kind.Computed? ==> exposeAttributes == old(exposeAttributes) && exposeAssociations == old(exposeAssociations)
      ensures att.kind.Plain? || att.kind.Included? ==> r.Ok?
      ensures att.kind.Query? ==> (r.Ok? <==> forall t :: t in att.kind.tables && t != scopeTable ==> joined(att.name))
      ensures r.Ok? ==> Settled(att, scopeTable, joined, exposeAttributes, exposeAssociations)
      ensures r.Ok? ==> SettledSince(attributes, scopeTable, joined, old(exposeAttributes), exposeAttributes, exposeAssociations)
      ensures Bounded(attributes, scopeTable, old(exposeAttributes), exposeAttributes, OwnColumns(att, scopeTable))
      decreases |Unexposed(attributes, exposeAttributes)|, 3
    {
      match att.kind
      case Computed(deps) =>
        r := SelectDependencies(deps);
        UnexposedShrinks(attributes, old(exposeAttributes), exposeAttributes);
      case Query(tables, _) =>
        r := EnsureJoins(att.name, tables);
      case _ =>
        r := Ok(());
    }

    /** A query attribute's tables, in order: each one other than the scope table must be joined
        in the scope (`ensure_table_join!`); the first that is not raises. */
    method EnsureJoins(name: string, tables: seq<string>) returns (r: Result<()>)
      ensures r.Ok? <==> forall t :: t in tables && t != scopeTable ==> joined(name)
      ensures r.Err? ==> exists t :: t in tables && t != scopeTable && r == Err(NotJoined(t, name))
    {
      var j := 0;
      while j < |tables|
        invariant 0 <= j <= |tables|
        invariant forall t :: t in tables[..j] && t != scopeTable ==> joined(name)
      {
        if tables[j] != scopeTable && !joined(name) {
          assert tables[j] in tables;
          return Err(NotJoined(tables[j], name));
        }
        TakeSnoc(tables, j);
        j := j + 1;
      }
      assert tables[..j] == tables;
      r := Ok(());
    }

    /** One dependency entry: `select(*columns)` for the scope's own table, `select(table =>
        columns)` for any other key. */
    method SelectDependency(d: Dependency) returns (r: Result<()>)
      requires Valid()
      modifies this`exposeAttributes, this`exposeAssociations
      ensures Valid()
      ensures Prefix(old(exposeAttributes), exposeAttributes)
      ensures Grows(old(exposeAssociations), exposeAssociations)
      ensures |Unexposed(attributes, exposeAttributes)| <= |Unexposed(attributes, old(exposeAttributes))|
      ensures r.Ok? ==> DepSelected(d, scopeTable, exposeAttributes, exposeAssociations)
      ensures r.Ok? ==> SettledSince(attributes, scopeTable, joined, old(exposeAttributes), exposeAttributes, exposeAssociations)
      ensures Bounded(attributes, scopeTable, old(exposeAttributes), exposeAttributes, DepColumns(d, scopeTable))
      decreases |Unexposed(attributes, exposeAttributes)|, 1
    {
      if d.table == scopeTable {
        r := Select(NameArgs(d.columns));
        NameArgsNames(d.columns);
        if r.Ok? {
          forall c | c in d.columns ensures c in exposeAttributes {
            var k :| 0 <= k < |d.columns| && d.columns[k] == c;
            assert NameArgs(d.columns)[k] in NameArgs(d.columns);
          }
        }
      } else {
        var p := (d.table, List(Symbols(d.columns)));
        r := Select([Assoc([p])]);
        assert ArgNameSet([Assoc([p])]) == {};
        BoundedWeaken(attributes, scopeTable, old(exposeAttributes), exposeAttributes, {}, DepColumns(d, scopeTable));
        if r.Ok? {
          assert Assoc([p]) in [Assoc([p])] && p in [p];
          assert AssocSelected(p, exposeAssociations);
          forall c | c in d.columns ensures Sym(c) in exposeAssociations[d.table] {
            var k :| 0 <= k < |d.columns| && d.columns[k] == c;
            assert Symbols(d.columns)[k] in ArrayOf(p.1);
          }
        }
      }
      UnexposedShrinks(attributes, old(exposeAttributes), exposeAttributes);
    }

    /** The dependency entries of one computed attribute, in order. */
    method SelectDependencies(deps: seq<Dependency>) returns (r: Result<()>)
      requires Valid()
      modifies this`exposeAttributes, this`exposeAssociations
      ensures Valid()
      ensures Prefix(old(exposeAttributes), exposeAttributes)
      ensures Grows(old(exposeAssociations), exposeAssociations)
      ensures r.Ok? ==> forall d :: d in deps ==> DepSelected(d, scopeTable, exposeAttributes, exposeAssociations)
      ensures r.Ok? ==> SettledSince(attributes, scopeTable, joined, old(exposeAttributes), exposeAttributes, exposeAssociations)
      ensures Bounded(attributes, scopeTable, old(exposeAttributes), exposeAttributes, ScopeColumns(deps, scopeTable))
      decreases |Unexposed(attributes, exposeAttributes)|, 2
    {
      var j := 0;
      while j < |deps|
        invariant 0 <= j <= |deps|
        invariant Valid()
        invariant Prefix(old(exposeAttributes), exposeAttributes)
        invariant Grows(old(exposeAssociations), exposeAssociations)
        invariant |Unexposed(attributes, exposeAttributes)| <= |Unexposed(attributes, old(exposeAttributes))|
        invariant forall k :: 0 <= k < j ==> DepSelected(deps[k], scopeTable, exposeAttributes, exposeAssociations)
        invariant SettledSince(attributes, scopeTable, joined, old(exposeAttributes), exposeAttributes, exposeAssociations)
        invariant Bounded(attributes, scopeTable, old(exposeAttributes), exposeAttributes, ScopeColumns(deps, scopeTable))
      {
        ghost var e0, a0 := exposeAttributes, exposeAssociations;
        r := SelectDependency(deps[j]);
        PrefixTrans(old(exposeAttributes), e0, exposeAttributes);
        GrowsTrans(old(exposeAssociations), a0, exposeAssociations);
        BoundedTrans(attributes, scopeTable, old(exposeAttributes), e0, exposeAttributes, ScopeColumns(deps, scopeTable), DepColumns(deps[j], scopeTable));
        ScopeColumnsHas(deps, scopeTable, j);
        BoundedWeaken(attributes, scopeTable, old(exposeAttributes), exposeAttributes,
                      ScopeColumns(deps, scopeTable) + DepColumns(deps[j], scopeTable), ScopeColumns(deps, scopeTable));
        if r.Err? {
          return;
        }
        SelectionsPersist(e0, a0, exposeAttributes, exposeAssociations);
        SettledSinceTrans(attributes, scopeTable, joined, old(exposeAttributes), e0, a0, exposeAttributes, exposeAssociations);
        j := j + 1;
      }
      r := Ok(());
      forall d | d in deps ensures DepSelected(d, scopeTable, exposeAttributes, exposeAssociations) {
        var k :| 0 <= k < |deps| && deps[k] == d;
      }
    }

    /** `get_select_values` as evidently intended: the Set seeded with `"<table>.id"`, then in
        registry order each exposed plain attribute's column and each exposed query attribute's
        expression. */
    method GetSelectValues() returns (r: seq<string>)
      ensures r == BaseSelectList(attributes, exposeAttributes, scopeTable)
    {
      r := [scopeTable + ".id"];
      var i := 0;
      while i < |attributes|
        invariant 0 <= i <= |attributes|
        invariant BaseSelectList(attributes, exposeAttributes, scopeTable) == BaseCompileFrom(r, attributes[i..], exposeAttributes, scopeTable)
      {
        DropCons(attributes, i);
        if AttributeExposed(attributes[i].name) {
          r := SelectCompiler.AddAll(r, BaseContribution(attributes[i], scopeTable));
        }
        i := i + 1;
      }
    }

    /** `can_upgrade?(records)`: true when no query attribute is exposed, otherwise whether every
        record has every exposed query attribute; an exposed name the registry lacks fails on
        `nil[:klass]`. */
    function CanUpgrade(records: Value, hasAttribute: (Value, string) -> bool): (r: Result<bool>)
      reads this
      ensures r.Ok? <==> forall n :: n in exposeAttributes ==> FindAttribute(attributes, n).Some?
      ensures r.Ok? ==> (r.value <==> forall rec, n :: (rec in ArrayOf(records) && n in exposeAttributes &&
        FindAttribute(attributes, n).value.kind.Query?) ==> hasAttribute(rec, n))
    {
      var q :- QueryAttributeNames(attributes, exposeAttributes);
      if |q| == 0 then Ok(true)
      else Ok(forall rec, n :: rec in ArrayOf(records) && n in q ==> hasAttribute(rec, n))
    }

    /** The result of calling the loader registered as `name` with the rows' ids, the rows and
        the scope: a `loaded` class's `load` takes one argument and so fails. */
    function LoadResult(rows: seq<ModelRecord>, name: string): Result<Value>
      requires name in loaders
    {
      var ids :- RecordIds(rows);
      match loaders[name].kind
      case ProcLoader(proc) => Loaders.LoadWith(loaders[name].options, proc, [List(ids), List(RecordValues(rows)), scope])
      case ContextLoader => Err(ArgumentError("wrong number of arguments (given 3, expected 1)"))
    }

    /** The loader `name` returned something truthy for `rows`. */
    ghost predicate LoadedTruthy(rows: seq<ModelRecord>, name: string) {
      name in loaders && LoadResult(rows, name).Ok? && Truthy(LoadResult(rows, name).value)
    }

    /** `row.loaded_values[name]` holds what the loader `name` returned for the row's id, or the
        loader's default. */
    ghost predicate Stored(rows: seq<ModelRecord>, row: ModelRecord, name: string)
      reads row
    {
      && name in loaders && LoadResult(rows, name).Ok? && RecordId(row).Ok?
      && LoadedEntry(LoadResult(rows, name).value, RecordId(row).value, DefaultValue(loaders[name])).Ok?
      && row.loadedValues.Some? && name in row.loadedValues.value
      && row.loadedValues.value[name] == LoadedEntry(LoadResult(rows, name).value, RecordId(row).value, DefaultValue(loaders[name])).value
    }

    /** One loader dependency in `results`: the loader is looked up (a missing one raises), called
        once with all the ids, and, when its result is truthy, every row's `loaded_values` (reset
        to `{}` first when the first row has none) gets the entry for `name`. */
    method RunLoader(rows: seq<ModelRecord>, name: string) returns (r: Result<()>, ids: seq<Value>)
      requires |rows| > 0
      modifies set row | row in rows
      ensures name !in loaders ==> r == Err(DatasourceError("loader with name :" + name + " could not be found"))
      ensures r.Ok? ==> name in loaders && LoadResult(rows, name).Ok? && RecordIds(rows) == Ok(ids)
      ensures r.Ok? ==> loaders[name].kind.ProcLoader?
      ensures r.Ok? && LoadedTruthy(rows, name) ==> forall row :: row in rows ==> Stored(rows, row, name)
      ensures r.Ok? && LoadedTruthy(rows, name) ==> forall row, m :: (row in rows && m != name && old(rows[0].loadedValues).Some? &&
        old(row.loadedValues).Some? && m in old(row.loadedValues).value) ==>
        row.loadedValues.Some? && m in row.loadedValues.value && row.loadedValues.value[m] == old(row.loadedValues).value[m]
      ensures r.Ok? && !LoadedTruthy(rows, name) ==> forall row :: row in rows ==> row.loadedValues == old(row.loadedValues)
    {
      ids := [];
      if name !in loaders {
        return Err(DatasourceError("loader with name :" + name + " could not be found")), ids;
      }
      var spec := loaders[name];
      var ids' := RecordIds(rows);
      if ids'.Err? {
        return Err(ids'.error), ids;
      }
      ids := ids'.value;
      var result := LoadResult(rows, name);
      if result.Err? {
        return Err(result.error), ids;
      }
      if !Truthy(result.value) {
        return Ok(()), ids;
      }
      if rows[0].loadedValues.None? {
        ResetLoaded(rows);
      }
      r := StoreEach(rows, name, result.value, DefaultValue(spec));
      if r.Ok? {
        forall row | row in rows ensures Stored(rows, row, name) {
        }
      }
    }

    /** Every loader among `names` that returned something truthy has its entry stored on
        every row. */
    ghost predicate AllStored(rows: seq<ModelRecord>, names: seq<string>)
      reads set row | row in rows
    {
      forall n, row :: (n in names && row in rows && LoadedTruthy(rows, n)) ==> Stored(rows, row, n)
    }

    /** Every name in `names` is a registered proc loader. */
    ghost predicate ProcLoaders(names: seq<string>) {
      forall n :: n in names ==> n in loaders && loaders[n].kind.ProcLoader?
    }

    lemma ProcLoadersAppend(a: seq<string>, b: seq<string>)
      requires ProcLoaders(a) && ProcLoaders(b)
      ensures ProcLoaders(a + b)
    {
    }

    /** The loader dependencies of one computed attribute, run in order; what earlier runs
        (`done`) stored stays stored. */
    method RunLoaders(rows: seq<ModelRecord>, deps: seq<string>, ghost done: seq<string>) returns (r: Result<()>, calls: seq<LoaderCall>)
      requires |rows| > 0
      requires AllStored(rows, done)
      modifies set row | row in rows
      ensures r.Ok? ==> CallsMatch(rows, calls, deps)
      ensures r.Ok? ==> ProcLoaders(deps)
      ensures r.Ok? ==> AllStored(rows, done + deps)
    {
      calls := [];
      var j := 0;
      while j < |deps|
        invariant 0 <= j <= |deps|
        invariant CallsMatch(rows, calls, deps[..j])
        invariant ProcLoaders(deps[..j])
        invariant AllStored(rows, done + deps[..j])
      {
        label before:
        var e, ids := RunLoader(rows, deps[j]);
        if e.Err? {
          return e, calls;
        }
        calls := calls + [LoaderCall(deps[j], ids)];
        TakeSnoc(deps, j);
        forall n, row | n in done + deps[..j + 1] && row in rows && LoadedTruthy(rows, n)
          ensures Stored(rows, row, n)
        {
          if n != deps[j] {
            assert n in done + deps[..j];
            assert old@before(Stored(rows, row, n)) && old@before(Stored(rows, rows[0], n));
          }
        }
        j := j + 1;
      }
      assert deps[..j] == deps;
      r := Ok(());
    }

    /** The step of `results` for one exposed name when there are rows: an unregistered name
        raises, and a computed attribute's loader dependencies are run. */
    method ResultsFor(rows: seq<ModelRecord>, name: string, ghost done: seq<string>) returns (r: Result<()>, calls: seq<LoaderCall>)
      requires |rows| > 0 && AllStored(rows, done)
      modifies set row | row in rows
      ensures FindAttribute(attributes, name).None? ==> r == Err(DatasourceError(UnknownMessage(name, modelName)))
      ensures r.Ok? ==> FindAttribute(attributes, name).Some?
      ensures r.Ok? ==> CallsMatch(rows, calls, LoaderNamesOf(attributes, name))
      ensures r.Ok? ==> ProcLoaders(LoaderNamesOf(attributes, name))
      ensures r.Ok? ==> AllStored(rows, done + LoaderNamesOf(attributes, name))
    {
      calls := [];
      var att := FindAttribute(attributes, name);
      if att.None? {
        return Err(DatasourceError(UnknownMessage(name, modelName))), calls;
      }
      if att.value.kind.Computed? {
        r, calls := RunLoaders(rows, LoaderDepends(att.value.kind.depends), done);
      } else {
        assert done + LoaderNamesOf(attributes, name) == done;
        r := Ok(());
      }
    }

    /** `results(rows)` for the rows' loader dependencies: for each exposed name in order, an
        unregistered one raises; when there are rows, each loader dependency of an exposed
        computed attribute is run once with the full id list. `calls` logs the loader runs. */
    method Results(rows: seq<ModelRecord>) returns (r: Result<()>, calls: seq<LoaderCall>)
      modifies set row | row in rows
      ensures |rows| == 0 ==> calls == [] && r == KnownNames(attributes, old(exposeAttributes), modelName)
      ensures r.Ok? ==> forall n :: n in old(exposeAttributes) ==> FindAttribute(attributes, n).Some?
      ensures r.Ok? && |rows| > 0 ==> CallsMatch(rows, calls, LoaderNames(attributes, old(exposeAttributes)))
      ensures r.Ok? && |rows| > 0 ==> ProcLoaders(LoaderNames(attributes, old(exposeAttributes)))
      ensures r.Ok? && |rows| > 0 ==> AllStored(rows, LoaderNames(attributes, old(exposeAttributes)))
    {
      if |rows| == 0 {
        return KnownNames(attributes, exposeAttributes, modelName), [];
      }
      calls := [];
      var names := exposeAttributes;
      var i := 0;
      while i < |names|
        invariant 0 <= i <= |names|
        invariant forall n :: n in names[..i] ==> FindAttribute(attributes, n).Some?
        invariant CallsMatch(rows, calls, LoaderNames(attributes, names[..i]))
        invariant ProcLoaders(LoaderNames(attributes, names[..i]))
        invariant AllStored(rows, LoaderNames(attributes, names[..i]))
      {
        var name := names[i];
        TakeSnoc(names, i);
        LoaderNamesSnoc(attributes, names[..i + 1]);
        ghost var before := calls;
        var e, c := ResultsFor(rows, name, LoaderNames(attributes, names[..i]));
        if e.Err? {
          return e, calls;
        }
        calls := calls + c;
        CallsMatchAppend(rows, before, LoaderNames(attributes, names[..i]), c, LoaderNamesOf(attributes, name));
        ProcLoadersAppend(LoaderNames(attributes, names[..i]), LoaderNamesOf(attributes, name));
        i := i + 1;
      }
      assert names[..i] == names;
      r := Ok(());
    }
  }

  /** `calls` are one run per name of `names`, in order, each with the rows' ids. */
  ghost predicate CallsMatch(rows: seq<ModelRecord>, calls: seq<LoaderCall>, names: seq<string>) {
    |calls| == |names| && forall k :: 0 <= k < |calls| ==> calls[k].name == names[k] && RecordIds(rows) == Ok(calls[k].ids)
  }

  lemma CallsMatchAppend(rows: seq<ModelRecord>, c1: seq<LoaderCall>, n1: seq<string>, c2: seq<LoaderCall>, n2: seq<string>)
    requires CallsMatch(rows, c1, n1) && CallsMatch(rows, c2, n2)
    ensures CallsMatch(rows, c1 + c2, n1 + n2)
  {
  }


  /** A model record as `results` sees it: its attributes, and the `loaded_values` it carries. */
  class ModelRecord {
    const attrs: map<string, Value>
    var loadedValues: Option<map<string, Value>>

    constructor (attrs: map<string, Value>, loadedValues: Option<map<string, Value>>)
      ensures this.attrs == attrs && this.loadedValues == loadedValues
    {
      this.attrs, this.loadedValues := attrs, loadedValues;
    }
  }

  /** One run of a loader by `results`: its name and the ids it was called with. */
  datatype LoaderCall = LoaderCall(name: string, ids: seq<Value>)

  /** `record.send(:id)`. */
  function RecordId(rec: ModelRecord): Result<Value> {
    if "id" in rec.attrs then Ok(rec.attrs["id"]) else Err(NoMethodError("id"))
  }

  /** `rows.map(&:id)`: the first record without an id fails. */
  function RecordIds(rows: seq<ModelRecord>): (r: Result<seq<Value>>)
    ensures r.Ok? <==> forall row :: row in rows ==> "id" in row.attrs
    ensures r.Ok? ==> |r.value| == |rows| && forall k :: 0 <= k < |rows| ==> r.value[k] == rows[k].attrs["id"]
  {
    if |rows| == 0 then Ok([])
    else
      var id :- RecordId(rows[0]);
      var rest :- RecordIds(rows[1..]);
      assert forall row :: row in rows ==> row == rows[0] || row in rows[1..];
      Ok([id] + rest)
  }

  /** The records as the values a loader block receives. */
  function RecordValues(rows: seq<ModelRecord>): (r: seq<Value>)
    ensures |r| == |rows| && forall k :: 0 <= k < |rows| ==> r[k] == Record(rows[k].attrs)
  {
    seq(|rows|, k requires 0 <= k < |rows| => Record(rows[k].attrs))
  }

  /** `loaded_values[id] || default`. */
  function LoadedEntry(result: Value, id: Value, default: Value): (r: Result<Value>)
    ensures result.Hash? ==> r.Ok?
    ensures result.Hash? && id in result.entries && Truthy(result.entries[id]) ==> r == Ok(result.entries[id])
    ensures result.Hash? && (id !in result.entries || !Truthy(result.entries[id])) ==> r == Ok(default)
  {
    var v :- Index(result, id);
    Ok(if Truthy(v) then v else default)
  }

  /** A loader result that is a String is indexed as one: the id picks a character. */
  lemma StringResultEntry()
    ensures LoadedEntry(Str("abc"), Int(0), Nil) == Ok(Str("a"))
    ensures LoadedEntry(Str("abc"), Int(5), Int(7)) == Ok(Int(7))
  {
  }

  const UnknownTail := ", :db_column_dependency\" in your datasource_module? See https://github.com/mrbrdo/datasource#model-methods--virtual-attributes"

  /** The message of the failure `results` raises for an exposed name the registry lacks. */
  function UnknownMessage(name: string, modelName: string): string {
    "attribute " + name + DoesNotExist + modelName + ForgotComputed + name + UnknownTail
  }

  /** The existence check `results` makes on each exposed name when there are no rows: the
      first unregistered name raises. */
  function KnownNames(attrs: seq<Attribute>, names: seq<string>, modelName: string): (r: Result<()>)
    ensures r.Ok? <==> forall n :: n in names ==> FindAttribute(attrs, n).Some?
  {
    if |names| == 0 then Ok(())
    else if FindAttribute(attrs, names[0]).None? then Err(DatasourceError(UnknownMessage(names[0], modelName)))
    else
      var rest := KnownNames(attrs, names[1..], modelName);
      assert forall n :: n in names ==> n == names[0] || n in names[1..];
      rest
  }

  /** `names[i]` is the first name the registry lacks. */
  ghost predicate FirstUnknown(attrs: seq<Attribute>, names: seq<string>, i: int) {
    0 <= i < |names| && FindAttribute(attrs, names[i]).None? &&
    forall j :: 0 <= j < i ==> FindAttribute(attrs, names[j]).Some?
  }

  /** A failing check raises the error naming the first unregistered name. */
  lemma {:induction false} KnownNamesFirstUnknown(attrs: seq<Attribute>, names: seq<string>, modelName: string)
    ensures KnownNames(attrs, names, modelName).Err? ==>
      exists i :: FirstUnknown(attrs, names, i) &&
                  KnownNames(attrs, names, modelName) == Err(DatasourceError(UnknownMessage(names[i], modelName)))
  {
    if |names| > 0 {
      if FindAttribute(attrs, names[0]).None? {
        assert FirstUnknown(attrs, names, 0);
      } else if KnownNames(attrs, names[1..], modelName).Err? {
        KnownNamesFirstUnknown(attrs, names[1..], modelName);
        var i :| FirstUnknown(attrs, names[1..], i) &&
          KnownNames(attrs, names[1..], modelName) == Err(DatasourceError(UnknownMessage(names[1..][i], modelName)));
        assert forall j :: 1 <= j < i + 1 ==> names[j] == names[1..][j - 1];
        assert FirstUnknown(attrs, names, i + 1);
      }
    }
  }

  /** The loader names the attribute registered as `name` reads: its dependency map's `loader`
      entries when it is computed, none otherwise. */
  function LoaderNamesOf(attrs: seq<Attribute>, name: string): seq<string> {
    match FindAttribute(attrs, name)
    case Some(Attribute(_, Computed(deps))) => LoaderDepends(deps)
    case _ => []
  }

  /** The loader runs `results` makes for the exposed `names`, in order. */
  function LoaderNames(attrs: seq<Attribute>, names: seq<string>): seq<string> {
    if |names| == 0 then [] else LoaderNames(attrs, names[..|names| - 1]) + LoaderNamesOf(attrs, names[|names| - 1])
  }

  lemma LoaderNamesSnoc(attrs: seq<Attribute>, names: seq<string>)
    requires |names| > 0
    ensures LoaderNames(attrs, names) == LoaderNames(attrs, names[..|names| - 1]) + LoaderNamesOf(attrs, names[|names| - 1])
  {
  }

  /** Every row's `loaded_values = {}`. */
  method ResetLoaded(rows: seq<ModelRecord>)
    modifies set row | row in rows
    ensures forall row :: row in rows ==> row.loadedValues == Some(map[])
  {
    var i := 0;
    while i < |rows|
      invariant 0 <= i <= |rows|
      invariant forall k :: 0 <= k < i ==> rows[k].loadedValues == Some(map[])
    {
      rows[i].loadedValues := Some(map[]);
      i := i + 1;
    }
  }

  /** `rows.each { |row| row.loaded_values[name] = result[row.id] || default }`: every row
      gets its entry; a row without an id, a result that cannot be indexed, or a row whose
      `loaded_values` is nil raises, leaving the earlier rows updated. */
  method StoreEach(rows: seq<ModelRecord>, name: string, result: Value, default: Value) returns (r: Result<()>)
    modifies set row | row in rows
    ensures r.Ok? <==> forall row :: row in rows ==>
      RecordId(row).Ok? && LoadedEntry(result, RecordId(row).value, default).Ok? && old(row.loadedValues).Some?
    ensures r.Ok? ==> forall row :: row in rows ==>
      row.loadedValues == Some(old(row.loadedValues).value[name := LoadedEntry(result, RecordId(row).value, default).value])
  {
    var i := 0;
    while i < |rows|
      invariant 0 <= i <= |rows|
      invariant forall k :: 0 <= k < i ==>
        RecordId(rows[k]).Ok? && LoadedEntry(result, RecordId(rows[k]).value, default).Ok? && old(rows[k].loadedValues).Some?
      invariant forall row :: row in rows && row in rows[..i] ==>
        row.loadedValues == Some(old(row.loadedValues).value[name := LoadedEntry(result, RecordId(row).value, default).value])
      invariant forall row :: row in rows && row !in rows[..i] ==> row.loadedValues == old(row.loadedValues)
    {
      var row := rows[i];
      var id := RecordId(row);
      if id.Err? {
        assert row in rows;
        return Err(id.error);
      }
      var v := LoadedEntry(result, id.value, default);
      if v.Err? {
        assert row in rows;
        return Err(v.error);
      }
      if row.loadedValues.None? {
        assert row in rows && row !in rows[..i];
        return Err(NoMethodError("[]="));
      }
      var before := row.loadedValues.value;
      if row in rows[..i] {
        assert before == old(row.loadedValues).value[name := v.value];
        assert before[name := v.value] == before;
      }
      row.loadedValues := Some(before[name := v.value]);
      TakeSnoc(rows, i);
      i := i + 1;
    }
    r := Ok(());
    assert rows[..i] == rows;
    forall row | row in rows
      ensures RecordId(row).Ok? && LoadedEntry(result, RecordId(row).value, default).Ok? && old(row.loadedValues).Some?
    {
      var k :| 0 <= k < |rows| && rows[k] == row;
    }
  }

  /** What an exposed attribute adds to the list of `Base#get_select_values`: a plain column,
      or a query attribute's expression; computed attributes add nothing here. */
  function BaseContribution(att: Attribute, scopeTable: string): seq<string> {
    match att.kind
    case Plain => [scopeTable + "." + att.name]
    case Query(_, selectValue) => ["(" + selectValue + ") as " + att.name]
    case _ => []
  }

  function BaseCompileFrom(acc: seq<string>, attrs: seq<Attribute>, expose: seq<string>, scopeTable: string): seq<string>
    decreases |attrs|
  {
    if |attrs| == 0 then acc
    else if attrs[0].name in expose then BaseCompileFrom(AppendAll(acc, BaseContribution(attrs[0], scopeTable)), attrs[1..], expose, scopeTable)
    else BaseCompileFrom(acc, attrs[1..], expose, scopeTable)
  }

  /** The list `get_select_values` is meant to return. */
  function BaseSelectList(attrs: seq<Attribute>, expose: seq<string>, scopeTable: string): seq<string> {
    BaseCompileFrom([scopeTable + ".id"], attrs, expose, scopeTable)
  }

  lemma {:induction false} BaseCompileFromSpec(acc: seq<string>, attrs: seq<Attribute>, expose: seq<string>, scopeTable: string)
    requires NoDup(acc)
    ensures var r := BaseCompileFrom(acc, attrs, expose, scopeTable);
      NoDup(r) && |acc| <= |r| && r[..|acc|] == acc
    ensures var r := BaseCompileFrom(acc, attrs, expose, scopeTable);
      forall s :: s in r <==> s in acc || exists a :: a in attrs && a.name in expose && s in BaseContribution(a, scopeTable)
    decreases |attrs|
  {
    if |attrs| > 0 {
      assert forall a :: a in attrs <==> a == attrs[0] || a in attrs[1..];
      var acc' := if attrs[0].name in expose then AppendAll(acc, BaseContribution(attrs[0], scopeTable)) else acc;
      AppendAllProperties(acc, BaseContribution(attrs[0], scopeTable));
      BaseCompileFromSpec(acc', attrs[1..], expose, scopeTable);
      var r := BaseCompileFrom(acc', attrs[1..], expose, scopeTable);
      assert r[..|acc|] == r[..|acc'|][..|acc|];
    }
  }

  /** The intended list is duplicate-free, starts with `"<table>.id"`, and holds exactly the
      column of every exposed plain attribute and the expression of every exposed query
      attribute besides. */
  lemma BaseSelectListSpec(attrs: seq<Attribute>, expose: seq<string>, scopeTable: string)
    ensures var r := BaseSelectList(attrs, expose, scopeTable);
      NoDup(r) && |r| >= 1 && r[0] == scopeTable + ".id"
    ensures var r := BaseSelectList(attrs, expose, scopeTable);
      forall s :: s in r <==> (s == scopeTable + ".id" ||
        (exists a :: a in attrs && a.name in expose && a.kind.Plain? && s == scopeTable + "." + a.name) ||
        (exists a :: a in attrs && a.name in expose && a.kind.Query? && s == "(" + a.kind.selectValue + ") as " + a.name))
  {
    BaseCompileFromSpec([scopeTable + ".id"], attrs, expose, scopeTable);
  }

  /** `get_select_values` as written: an exposed query attribute makes it call `select_value` on
      the attribute's class, which only defines it for instances. */
  function GetSelectValuesAsWritten(attrs: seq<Attribute>, expose: seq<string>, scopeTable: string): (r: Result<seq<string>>)
    ensures r.Err? <==> exists a :: a in attrs && a.name in expose && a.kind.Query?
    ensures r.Err? ==> r.error == NoMethodError("select_value")
    ensures r.Ok? ==> r.value == BaseSelectList(attrs, expose, scopeTable)
  {
    if exists a :: a in attrs && a.name in expose && a.kind.Query? then Err(NoMethodError("select_value"))
    else Ok(BaseSelectList(attrs, expose, scopeTable))
  }

  /** The discrepancy: exposing the query attribute `n` yields the intended list
      `["t.id", "(expr) as n"]`, while the code as written raises. */
  lemma QueryAttributeBreaksSelectValues(t: string, n: string, expr: string)
    requires '(' !in t
    ensures GetSelectValuesAsWritten([Attribute(n, Query([], expr))], [n], t) == Err(NoMethodError("select_value"))
    ensures BaseSelectList([Attribute(n, Query([], expr))], [n], t) == [t + ".id", "(" + expr + ") as " + n]
  {
    var att := Attribute(n, Query([], expr));
    assert att in [att];
    var acc := [t + ".id"];
    var s := "(" + expr + ") as " + n;
    assert s != t + ".id" by {
      assert s[0] == '(';
      if |t| > 0 {
        assert (t + ".id")[0] == t[0] && t[0] in t;
      } else {
        assert (t + ".id")[0] == '.';
      }
    }
    assert BaseContribution(att, t) == [s];
    assert AppendAll(acc, [s]) == acc + [s];
    assert [att][1..] == [];
    assert BaseCompileFrom(acc, [att], [n], t) == BaseCompileFrom(acc + [s], [], [n], t);
  }

  /** The exposed names whose registered attribute is a query attribute, in order; an exposed
      name the registry lacks fails on `nil[:klass]`. */
  function QueryAttributeNames(attrs: seq<Attribute>, expose: seq<string>): (r: Result<seq<string>>)
    ensures r.Ok? <==> forall n :: n in expose ==> FindAttribute(attrs, n).Some?
    ensures r.Ok? ==> forall n :: n in r.value <==> n in expose && FindAttribute(attrs, n).value.kind.Query?
  {
    if |expose| == 0 then Ok([])
    else
      match FindAttribute(attrs, expose[0])
      case None => Err(NoMethodError("[]"))
      case Some(a) =>
        var rest :- QueryAttributeNames(attrs, expose[1..]);
        assert forall n :: n in expose <==> n == expose[0] || n in expose[1..];
        Ok(if a.kind.Query? then [expose[0]] + rest else rest)
  }

  /** The rows as `group_by_column` stores them: without `column` when asked to remove it. */
  function GroupedRows(rows: seq<Row>, column: string, removeColumn: bool): (r: seq<Row>)
    ensures |r| == |rows| && forall i :: 0 <= i < |rows| ==> r[i] == if removeColumn then rows[i] - {column} else rows[i]
  {
    seq(|rows|, i requires 0 <= i < |rows| => if removeColumn then rows[i] - {column} else rows[i])
  }

  /** `group_by_column(column, rows, remove_column)`: each row under its `column` value, the last
      row with a value winning, the column removed from the stored rows when asked. */
  function GroupByColumn(column: string, rows: seq<Row>, removeColumn: bool): (r: map<Value, Row>)
    ensures forall k :: k in r <==> exists i :: 0 <= i < |rows| && Get(rows[i], column) == k
    ensures forall i :: 0 <= i < |rows| && (forall j :: i < j < |rows| ==> Get(rows[j], column) != Get(rows[i], column)) ==>
      Get(rows[i], column) in r && r[Get(rows[i], column)] == if removeColumn then rows[i] - {column} else rows[i]
  {
    var keys := ColumnValues(rows, column);
    var stored := GroupedRows(rows, column, removeColumn);
    LastWinsSpec(map[], keys, stored);
    var r := LastWins(map[], keys, stored);
    assert forall k :: k in r <==> exists i :: 0 <= i < |rows| && keys[i] == k;
    r
  }

  /** An association reflection: its macro and its foreign key. */
  datatype Reflection = Reflection(macro: string, foreignKey: Value)

  /** A select list a caller hands to `reflection_select` to be pushed onto. */
  class SelectBuffer {
    var items: seq<Value>

    constructor (items: seq<Value>)
      ensures this.items == items
    {
      this.items := items;
    }
  }

  /** `reflection_select(reflection, parent_select, assoc_select)`: a `belongs_to` pushes the
      foreign key onto the parent's select, a `has_many` or `has_one` onto the association's,
      anything else raises. */
  method ReflectionSelect(reflection: Reflection, parentSelect: SelectBuffer, assocSelect: SelectBuffer) returns (r: Result<()>)
    modifies parentSelect, assocSelect
    ensures reflection.macro == "belongs_to" ==>
      r.Ok? && parentSelect.items == old(parentSelect.items) + [reflection.foreignKey] &&
      (assocSelect != parentSelect ==> assocSelect.items == old(assocSelect.items))
    ensures reflection.macro in {"has_many", "has_one"} ==>
      r.Ok? && assocSelect.items == old(assocSelect.items) + [reflection.foreignKey] &&
      (assocSelect != parentSelect ==> parentSelect.items == old(parentSelect.items))
    ensures reflection.macro !in {"belongs_to", "has_many", "has_one"} ==>
      r == Err(DatasourceError("unsupported association type " + reflection.macro + " - TODO")) &&
      parentSelect.items == old(parentSelect.items) && assocSelect.items == old(assocSelect.items)
  {
    if reflection.macro == "belongs_to" {
      parentSelect.items := parentSelect.items + [reflection.foreignKey];
      r := Ok(());
    } else if reflection.macro in {"has_many", "has_one"} {
      assocSelect.items := assocSelect.items + [reflection.foreignKey];
      r := Ok(());
    } else {
      r := Err(DatasourceError("unsupported association type " + reflection.macro + " - TODO"));
    }
  }
}
