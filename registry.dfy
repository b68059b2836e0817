/** The class-level attribute registry of a datasource: the closed set of attribute kinds, the
    dependency maps they carry, the loader table, and the registry object a datasource class
    keeps and copies into its subclasses. */
module Registry {
  import opened Values

  /** One `table => columns` entry of a computed attribute's dependency map. */
  datatype Dependency = Dependency(table: string, columns: seq<string>)

  /** The dependency key under which a computed attribute names the loaders it reads. */
  const LoaderKey: string := "loader"

  /** The kinds an attribute can have: a plain column (`klass == nil`), a computed attribute
      with its dependency map, a query attribute with its dependency tables and its SQL
      expression, or an included sub-datasource with its foreign key and id key. */
  datatype AttributeKind =
    | Plain
    | Computed(depends: seq<Dependency>)
    | Query(tables: seq<string>, selectValue: string)
    | Included(datasource: string, foreignKey: string, idKey: string)

  datatype Attribute = Attribute(name: string, kind: AttributeKind)

  /** A loader block: its arity (negative for a variadic block) and what it returns for the
      arguments it is given. Its body is arbitrary user code and stays opaque. */
  datatype LoadProc = LoadProc(arity: int, body: seq<Value> -> Value)

  /** How a registered loader is called: a `loader` class with its block (`nil` when none was
      given), or a `loaded` class whose `load` takes the collection context. */
  datatype LoaderKind = ProcLoader(proc: Option<LoadProc>) | ContextLoader

  datatype LoaderSpec = LoaderSpec(kind: LoaderKind, options: map<string, Value>)

  /** `default_value`: the `:default` option, or nil. */
  function DefaultValue(spec: LoaderSpec): Value {
    if "default" in spec.options then spec.options["default"] else Nil
  }

  /** The loader names a dependency map lists under the `loader` key, in order. */
  function LoaderDepends(deps: seq<Dependency>): (names: seq<string>)
    ensures forall n :: n in names <==> exists i :: 0 <= i < |deps| && deps[i].table == LoaderKey && n in deps[i].columns
  {
    if |deps| == 0 then []
    else
      var rest := LoaderDepends(deps[1..]);
      assert forall i :: 1 <= i < |deps| ==> deps[i] == deps[1..][i - 1];
      if deps[0].table == LoaderKey then deps[0].columns + rest else rest
  }

  ghost predicate UniqueNames(attrs: seq<Attribute>) {
    forall i, j :: 0 <= i < j < |attrs| ==> attrs[i].name != attrs[j].name
  }

  /** The position of `name` in the registry: the first attribute with that name. */
  function IndexOfName(attrs: seq<Attribute>, name: string): (r: Option<nat>)
    ensures r.Some? ==>
      r.value < |attrs| && attrs[r.value].name == name && forall j :: 0 <= j < r.value ==> attrs[j].name != name
    ensures r.None? ==> forall a :: a in attrs ==> a.name != name
  {
    if |attrs| == 0 then None
    else if attrs[0].name == name then Some(0)
    else match IndexOfName(attrs[1..], name)
      case Some(i) => Some(i + 1)
      case None => None
  }

  /** `_attributes[name]`. */
  function FindAttribute(attrs: seq<Attribute>, name: string): (r: Option<Attribute>)
    ensures r.Some? ==> r.value in attrs && r.value.name == name
    ensures r.None? ==> forall a :: a in attrs ==> a.name != name
  {
    match IndexOfName(attrs, name)
    case Some(i) => Some(attrs[i])
    case None => None
  }

  lemma FindAttributeUnique(attrs: seq<Attribute>, i: nat)
    requires UniqueNames(attrs) && i < |attrs|
    ensures FindAttribute(attrs, attrs[i].name) == Some(attrs[i])
  {
  }

  /** The registered names, in declaration order (`_attributes.keys`). */
  function Names(attrs: seq<Attribute>): (names: seq<string>)
    ensures |names| == |attrs| && forall i :: 0 <= i < |attrs| ==> names[i] == attrs[i].name
  {
    if |attrs| == 0 then [] else [attrs[0].name] + Names(attrs[1..])
  }

  /** `_attributes[att[:name]] = att` on an insertion-ordered Hash: an existing name is
      replaced where it stands, a new one goes at the end. */
  function PutAttribute(attrs: seq<Attribute>, att: Attribute): seq<Attribute> {
    match IndexOfName(attrs, att.name)
    case Some(i) => attrs[i := att]
    case None => attrs + [att]
  }

  /** Registering keeps names unique, makes the name resolve to the new attribute, leaves every
      other name's attribute alone, and grows the registry only for a new name. */
  lemma PutAttributeSpec(attrs: seq<Attribute>, att: Attribute)
    requires UniqueNames(attrs)
    ensures UniqueNames(PutAttribute(attrs, att))
    ensures FindAttribute(PutAttribute(attrs, att), att.name) == Some(att)
    ensures forall n :: n != att.name ==> FindAttribute(PutAttribute(attrs, att), n) == FindAttribute(attrs, n)
    ensures |PutAttribute(attrs, att)| == if FindAttribute(attrs, att.name).Some? then |attrs| else |attrs| + 1
    ensures FindAttribute(attrs, att.name).None? ==> PutAttribute(attrs, att) == attrs + [att]
  {
    var r := PutAttribute(attrs, att);
    assert forall k :: 0 <= k < |r| ==> r[k].name == (if k < |attrs| then attrs[k].name else att.name);
    assert UniqueNames(r);
    var k :| 0 <= k < |r| && r[k] == att;
    FindAttributeUnique(r, k);
    forall n | n != att.name ensures FindAttribute(r, n) == FindAttribute(attrs, n) {
      var a := FindAttribute(attrs, n);
      if a.Some? {
        var j := IndexOfName(attrs, n).value;
        assert r[j] == attrs[j];
        FindAttributeUnique(r, j);
        FindAttributeUnique(attrs, j);
      } else {
        assert forall b :: b in r ==> b.name != n;
      }
    }
  }

  /** The registry a datasource class holds at class level: its attributes in declaration order,
      its association names, its loaders by name, and the methods its model class defines. */
  class DatasourceClass {
    var attributes: seq<Attribute>
    var associations: set<string>
    var loaders: map<string, LoaderSpec>
    var modelMethods: set<string>
    const modelName: string

    ghost predicate Valid()
      reads this
    {
      UniqueNames(attributes)
    }

    /** `inherited`: a subclass starts from copies of its parent's registries (empty for the root). */
    constructor Inherit(parent: DatasourceClass?, modelName: string, modelMethods: set<string>)
      requires parent != null ==> parent.Valid()
      ensures Valid()
      ensures parent != null ==>
        attributes == parent.attributes && associations == parent.associations && loaders == parent.loaders
      ensures parent == null ==> attributes == [] && associations == {} && loaders == map[]
      ensures this.modelMethods == modelMethods && this.modelName == modelName
    {
      if parent != null {
        attributes, associations, loaders := parent.attributes, parent.associations, parent.loaders;
      } else {
        attributes, associations, loaders := [], {}, map[];
      }
      this.modelMethods := modelMethods;
      this.modelName := modelName;
    }

    /** `attribute(name, klass)`: registers (or re-registers in place) one attribute. */
    method DeclareAttribute(att: Attribute)
      requires Valid()
      modifies this`attributes
      ensures Valid()
      ensures attributes == PutAttribute(old(attributes), att)
      ensures FindAttribute(attributes, att.name) == Some(att)
      ensures forall n :: n != att.name ==> FindAttribute(attributes, n) == FindAttribute(old(attributes), n)
    {
      PutAttributeSpec(attributes, att);
      attributes := PutAttribute(attributes, att);
    }

    /** `attributes(*names)`: one plain attribute per name, in order. */
    method DeclareAttributes(names: seq<string>)
      requires Valid()
      modifies this`attributes
      ensures Valid()
      ensures forall n :: n in names ==> FindAttribute(attributes, n) == Some(Attribute(n, Plain))
      ensures forall n :: n !in names ==> FindAttribute(attributes, n) == FindAttribute(old(attributes), n)
    {
      var i := 0;
      while i < |names|
        invariant 0 <= i <= |names|
        invariant Valid()
        invariant forall k :: 0 <= k < i ==> FindAttribute(attributes, names[k]) == Some(Attribute(names[k], Plain))
        invariant forall n :: n !in names[..i] ==> FindAttribute(attributes, n) == FindAttribute(old(attributes), n)
      {
        ghost var before := attributes;
        DeclareAttribute(Attribute(names[i], Plain));
        TakeSnoc(names, i);
        forall k | 0 <= k < i + 1 ensures FindAttribute(attributes, names[k]) == Some(Attribute(names[k], Plain)) {
          if names[k] != names[i] {
            assert FindAttribute(attributes, names[k]) == FindAttribute(before, names[k]);
          }
        }
        forall n | n !in names[..i + 1] ensures FindAttribute(attributes, n) == FindAttribute(old(attributes), n) {
          assert n !in names[..i] && n != names[i];
        }
        i := i + 1;
      }
      assert names[..i] == names;
      forall n | n in names ensures FindAttribute(attributes, n) == Some(Attribute(n, Plain)) {
        var k :| 0 <= k < |names| && names[k] == n;
      }
    }

    /** `association(name)`. */
    method DeclareAssociation(name: string)
      modifies this`associations
      ensures associations == old(associations) + {name}
    {
      associations := associations + {name};
    }

    /** `associations(*names)`. */
    method DeclareAssociations(names: seq<string>)
      modifies this`associations
      ensures associations == old(associations) + set n | n in names
    {
      var i := 0;
      while i < |names|
        invariant 0 <= i <= |names|
        invariant associations == old(associations) + set n | n in names[..i]
      {
        DeclareAssociation(names[i]);
        TakeSnoc(names, i);
        i := i + 1;
      }
      assert names[..i] == names;
    }

    /** `@_loaders[name] = klass`. */
    method RegisterLoader(name: string, spec: LoaderSpec)
      modifies this`loaders
      ensures loaders == old(loaders)[name := spec]
    {
      loaders := loaders[name := spec];
    }

    /** Defining (or prepending) an instance method `name` on the model class. */
    method DefineModelMethod(name: string)
      modifies this`modelMethods
      ensures modelMethods == old(modelMethods) + {name}
    {
      modelMethods := modelMethods + {name};
    }
  }
}
