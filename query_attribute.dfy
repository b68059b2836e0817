/** Query attributes: a class-level list of dependency tables that `depends` appends to, and
    `query_attribute`, which registers an attribute whose value is an SQL expression. */
module QueryAttributes {
  import opened Values
  import opened Registry

  class QueryAttributeClass {
    var depends: seq<string>

    /** `inherited`: a subclass starts from a copy of its parent's list (empty for the root). */
    constructor Inherit(parent: QueryAttributeClass?)
      ensures parent != null ==> depends == parent.depends
      ensures parent == null ==> depends == []
    {
      depends := if parent != null then parent.depends else [];
    }

    /** `depends(*args)`: the table names are appended in order; nothing is deduplicated. */
    method Depends(args: seq<string>)
      modifies this`depends
      ensures depends == old(depends) + args
      ensures |depends| == |old(depends)| + |args|
    {
      depends := depends + args;
    }
  }

  /** `query_attribute(name, deps) { select_value }`: a fresh query-attribute class depending on
      the one table `deps` and yielding the SQL expression `selectValue`, registered as `name`. */
  method DefineQueryAttribute(reg: DatasourceClass, name: string, deps: string, selectValue: string)
    returns (klass: QueryAttributeClass)
    requires reg.Valid()
    modifies reg`attributes
    ensures fresh(klass) && klass.depends == [deps]
    ensures reg.Valid() && reg.attributes == PutAttribute(old(reg.attributes), Attribute(name, Query([deps], selectValue)))
    ensures FindAttribute(reg.attributes, name) == Some(Attribute(name, Query([deps], selectValue)))
    ensures forall n :: n != name ==> FindAttribute(reg.attributes, n) == FindAttribute(old(reg.attributes), n)
  {
    klass := new QueryAttributeClass.Inherit(null);
    klass.Depends([deps]);
    reg.DeclareAttribute(Attribute(name, Query(klass.depends, selectValue)));
  }

  /** Declaring the same table twice keeps both entries. */
  method DependsTwiceKeepsDuplicates(t: string) returns (klass: QueryAttributeClass)
    ensures fresh(klass) && klass.depends == [t, t]
  {
    klass := new QueryAttributeClass.Inherit(null);
    klass.Depends([t]);
    klass.Depends([t]);
  }
}
