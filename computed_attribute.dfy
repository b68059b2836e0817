/** Computed attributes: a class-level dependency map (`table => columns`), deep-merged by
    `depends`, one reader per declared dependency column, and `computed` which registers an
    attribute backed by a fresh computed-attribute class. */
module ComputedAttributes {
  import opened Values
  import opened Registry

  ghost predicate UniqueTables(deps: seq<Dependency>) {
    forall i, j :: 0 <= i < j < |deps| ==> deps[i].table != deps[j].table
  }

  /** The position of `table` in a dependency map. */
  function TableIndex(deps: seq<Dependency>, table: string): (r: Option<nat>)
    ensures r.Some? ==> r.value < |deps| && deps[r.value].table == table
    ensures r.None? ==> forall d :: d in deps ==> d.table != table
  {
    if |deps| == 0 then None
    else if deps[0].table == table then Some(0)
    else match TableIndex(deps[1..], table)
      case Some(i) => Some(i + 1)
      case None => None
  }

  /** `deps[table]`: the columns stored for a table, if it is a key. */
  function ColumnsOf(deps: seq<Dependency>, table: string): Option<seq<string>> {
    match TableIndex(deps, table)
    case Some(i) => Some(deps[i].columns)
    case None => None
  }

  /** Merging one entry into a Hash: an existing table gets the new column list where it stands
      (Hash#deep_merge! replaces non-Hash values), a new table is appended. */
  function MergeEntry(deps: seq<Dependency>, d: Dependency): seq<Dependency> {
    match TableIndex(deps, d.table)
    case Some(i) => deps[i := d]
    case None => deps + [d]
  }

  /** `deps.deep_merge!(other)`: the entries of `other` merged in, in order. */
  function DeepMerge(deps: seq<Dependency>, other: seq<Dependency>): seq<Dependency>
    decreases |other|
  {
    if |other| == 0 then deps else DeepMerge(MergeEntry(deps, other[0]), other[1..])
  }

  lemma MergeEntrySpec(deps: seq<Dependency>, d: Dependency)
    requires UniqueTables(deps)
    ensures UniqueTables(MergeEntry(deps, d))
    ensures ColumnsOf(MergeEntry(deps, d), d.table) == Some(d.columns)
    ensures forall t :: t != d.table ==> ColumnsOf(MergeEntry(deps, d), t) == ColumnsOf(deps, t)
  {
    var r := MergeEntry(deps, d);
    assert forall k :: 0 <= k < |r| ==> r[k].table == (if k < |deps| then deps[k].table else d.table);
    forall t ensures ColumnsOf(r, t) == if t == d.table then Some(d.columns) else ColumnsOf(deps, t) {
      var ir := TableIndex(r, t);
      var id := TableIndex(deps, t);
      if ir.Some? {
        assert r[ir.value].table == t;
      }
      if id.Some? {
        assert deps[id.value].table == t;
      }
    }
  }

  /** After a deep merge every table of `other` holds the columns `other` gave it last, every
      other table keeps its columns, and tables stay unique. */
  lemma {:induction false} DeepMergeSpec(deps: seq<Dependency>, other: seq<Dependency>)
    requires UniqueTables(deps)
    ensures UniqueTables(DeepMerge(deps, other))
    ensures forall t :: (forall d :: d in other ==> d.table != t) ==> ColumnsOf(DeepMerge(deps, other), t) == ColumnsOf(deps, t)
    ensures forall i :: 0 <= i < |other| && (forall j :: i < j < |other| ==> other[j].table != other[i].table) ==>
      ColumnsOf(DeepMerge(deps, other), other[i].table) == Some(other[i].columns)
    decreases |other|
  {
    if |other| > 0 {
      MergeEntrySpec(deps, other[0]);
      var m := MergeEntry(deps, other[0]);
      DeepMergeSpec(m, other[1..]);
      forall i | 0 <= i < |other| && (forall j :: i < j < |other| ==> other[j].table != other[i].table)
        ensures ColumnsOf(DeepMerge(deps, other), other[i].table) == Some(other[i].columns)
      {
        if i > 0 {
          assert other[i] == other[1..][i - 1];
          assert forall j :: i - 1 < j < |other[1..]| ==> other[1..][j] == other[j + 1];
        } else {
          assert forall d :: d in other[1..] ==> d.table != other[0].table;
        }
      }
    }
  }

  /** Every column name a dependency map lists. */
  function AllColumns(deps: seq<Dependency>): set<string> {
    set d, c | d in deps && c in d.columns :: c
  }

  /** A computed-attribute class: its dependency map and the readers `depends` has defined. */
  class ComputedAttributeClass {
    var depends: seq<Dependency>
    var readers: set<string>

    ghost predicate Valid()
      reads this
    {
      UniqueTables(depends) && AllColumns(depends) <= readers
    }

    /** `inherited`: a subclass starts from a copy of its parent's dependency map (empty for the
        root class) and inherits its readers. */
    constructor Inherit(parent: ComputedAttributeClass?)
      requires parent != null ==> parent.Valid()
      ensures Valid()
      ensures parent != null ==> depends == parent.depends && readers == parent.readers
      ensures parent == null ==> depends == [] && readers == {}
    {
      if parent != null {
        depends, readers := parent.depends, parent.readers;
      } else {
        depends, readers := [], {};
      }
    }

    /** `depends(*args)`: deep-merges each argument into the map and defines a reader for every
        column it names. */
    method Depends(args: seq<seq<Dependency>>)
      requires Valid()
      modifies this
      ensures Valid()
      ensures depends == MergeAll(old(depends), args)
      ensures readers == old(readers) + set a, c | a in args && c in AllColumns(a) :: c
    {
      var i := 0;
      while i < |args|
        invariant 0 <= i <= |args|
        invariant Valid()
        invariant depends == MergeAll(old(depends), args[..i])
        invariant readers == old(readers) + set a, c | a in args[..i] && c in AllColumns(a) :: c
      {
        DeepMergeSpec(depends, args[i]);
        MergeAllSnoc(old(depends), args[..i], args[i]);
        TakeSnoc(args, i);
        AllColumnsMerge(depends, args[i]);
        depends := DeepMerge(depends, args[i]);
        readers := readers + AllColumns(args[i]);
        i := i + 1;
      }
      assert args[..i] == args;
    }
  }

  /** Deep-merging each argument in turn. */
  function MergeAll(deps: seq<Dependency>, args: seq<seq<Dependency>>): seq<Dependency>
    decreases |args|
  {
    if |args| == 0 then deps else MergeAll(DeepMerge(deps, args[0]), args[1..])
  }

  lemma {:induction false} MergeAllSnoc(deps: seq<Dependency>, args: seq<seq<Dependency>>, last: seq<Dependency>)
    ensures MergeAll(deps, args + [last]) == DeepMerge(MergeAll(deps, args), last)
    decreases |args|
  {
    if |args| > 0 {
      assert (args + [last])[1..] == args[1..] + [last];
      MergeAllSnoc(DeepMerge(deps, args[0]), args[1..], last);
    } else {
      assert args + [last] == [last];
    }
  }

  lemma {:induction false} AllColumnsMerge(deps: seq<Dependency>, other: seq<Dependency>)
    ensures AllColumns(DeepMerge(deps, other)) <= AllColumns(deps) + AllColumns(other)
    decreases |other|
  {
    if |other| > 0 {
      var m := MergeEntry(deps, other[0]);
      assert AllColumns(m) <= AllColumns(deps) + AllColumns(other[..1]) by {
        forall c | c in AllColumns(m) ensures c in AllColumns(deps) + AllColumns(other[..1]) {
          var d :| d in m && c in d.columns;
          if d !in deps { assert d == other[0] && other[0] in other[..1]; }
        }
      }
      AllColumnsMerge(m, other[1..]);
      assert other == other[..1] + other[1..];
      forall c | c in AllColumns(other[..1]) + AllColumns(other[1..]) ensures c in AllColumns(other) {
        if c in AllColumns(other[..1]) {
          var d :| d in other[..1] && c in d.columns;
          assert d in other;
        } else {
          var d :| d in other[1..] && c in d.columns;
          assert d in other;
        }
      }
    }
  }

  /** A declared dependency column read on a computed-attribute instance: the value
      `depend_values[name]` (nil when the row lacks it); a name with no reader raises. */
  function DependencyValue(readers: set<string>, dependValues: Row, name: string): (r: Result<Value>)
    ensures r.Ok? <==> name in readers
    ensures r.Ok? ==> r.value == Get(dependValues, name)
  {
    if name in readers then Ok(Get(dependValues, name)) else Err(NoMethodError(name))
  }

  /** `computed(name, deps)`: a fresh computed-attribute class depending on `deps`, registered
      as attribute `name`. */
  method DefineComputed(reg: DatasourceClass, name: string, deps: seq<Dependency>) returns (klass: ComputedAttributeClass)
    requires reg.Valid()
    modifies reg`attributes
    ensures fresh(klass) && klass.Valid()
    ensures klass.depends == DeepMerge([], deps)
    ensures reg.Valid() && reg.attributes == PutAttribute(old(reg.attributes), Attribute(name, Computed(klass.depends)))
    ensures FindAttribute(reg.attributes, name) == Some(Attribute(name, Computed(klass.depends)))
    ensures forall n :: n != name ==> FindAttribute(reg.attributes, n) == FindAttribute(old(reg.attributes), n)
  {
    klass := new ComputedAttributeClass.Inherit(null);
    klass.Depends([deps]);
    assert MergeAll([], [deps]) == MergeAll(DeepMerge([], deps), []);
    reg.DeclareAttribute(Attribute(name, Computed(klass.depends)));
  }
}
