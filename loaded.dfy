/** `Attributes::Loaded`: a batch loader whose source is a method of the collection context, the
    options defaulting that source to `load_<name>`, the shaping of `load`, and the reader that
    `loaded` prepends onto the model. */
module LoadedAttributes {
  import opened Values
  import opened Registry
  import opened LoadShaping
  import opened ComputedAttributes
  import Loaders

  /** A method of the collection context: its arity and what it returns for its arguments. */
  datatype ContextMethod = ContextMethod(arity: int, body: seq<Value> -> Value)

  /** The shaping a Loaded's options select: `group_by` (with or without `one`) first, then
      `from: :array`, else none. */
  function LoadedMode(options: map<string, Value>): (mode: ShapeMode)
    ensures Truthy(Loaders.Opt(options, "group_by")) ==>
      mode == if Truthy(Loaders.Opt(options, "one")) then GroupOne(Loaders.Opt(options, "group_by")) else GroupMany(Loaders.Opt(options, "group_by"))
    ensures mode.PairsToHash? <==> !Truthy(Loaders.Opt(options, "group_by")) && Loaders.Opt(options, "from") == Sym("array")
    ensures mode.AsIs? <==> !Truthy(Loaders.Opt(options, "group_by")) && Loaders.Opt(options, "from") != Sym("array")
  {
    var g := Loaders.Opt(options, "group_by");
    if Truthy(g) then (if Truthy(Loaders.Opt(options, "one")) then GroupOne(g) else GroupMany(g))
    else if Loaders.Opt(options, "from") == Sym("array") then PairsToHash
    else AsIs
  }

  /** `[collection_context].slice(0, arity) if arity >= 0`: a method taking one or more arguments
      gets the context, one taking none gets nothing, and a variadic method (negative arity)
      leaves `args` unset and so is also called with nothing. */
  function ContextArgs(ctx: Value, arity: int): (r: seq<Value>)
    ensures r == [ctx] <==> arity >= 1
    ensures r == [] <==> arity < 1
  {
    if arity >= 1 then [ctx] else []
  }

  /** The method name `_options[:source]` designates. */
  function SourceName(options: map<string, Value>): Result<string> {
    match Loaders.Opt(options, "source")
    case Sym(n) => Ok(n)
    case Str(n) => Ok(n)
    case _ => Err(TypeError("is not a symbol nor a string"))
  }

  /** `Method#call`'s arity check: a method of arity n >= 0 takes exactly n arguments, one of
      arity -n-1 (optional or rest parameters) at least n. */
  predicate AcceptsArgs(arity: int, count: nat) {
    if arity >= 0 then count == arity else count >= -arity - 1
  }

  const WrongArity := "wrong number of arguments"

  /** `Loaded.load(collection_context)`: the source method called with the truncated argument
      list, then shaped; a context without that method fails, and so does a method that needs
      two or more arguments (it is given the context alone) or at least one argument with
      optional or rest parameters after it (it is given nothing). */
  function LoadFromContext(options: map<string, Value>, methods: map<string, ContextMethod>, ctx: Value): (r: Result<Value>)
    ensures SourceName(options).Err? ==> r == Err(SourceName(options).error)
    ensures SourceName(options).Ok? && SourceName(options).value !in methods ==> r == Err(NameError(SourceName(options).value))
    ensures SourceName(options).Ok? && SourceName(options).value in methods ==>
      var m := methods[SourceName(options).value];
      (m.arity >= 2 || m.arity <= -2 ==> r == Err(ArgumentError(WrongArity))) &&
      (-1 <= m.arity <= 1 ==> r == Shape(m.body(ContextArgs(ctx, m.arity)), LoadedMode(options)))
  {
    var source :- SourceName(options);
    if source !in methods then Err(NameError(source))
    else
      var m := methods[source];
      var args := ContextArgs(ctx, m.arity);
      if !AcceptsArgs(m.arity, |args|) then Err(ArgumentError(WrongArity))
      else Shape(m.body(args), LoadedMode(options))
  }

  /** `options.reverse_merge(source: :"load_<name>")`: the given options, with `source` defaulting
      to `load_<name>`. */
  function WithDefaultSource(name: string, opts: map<string, Value>): (r: map<string, Value>)
    ensures "source" in r && r.Keys == opts.Keys + {"source"}
    ensures "source" in opts ==> r["source"] == opts["source"]
    ensures "source" !in opts ==> r["source"] == Sym("load_" + name)
    ensures forall k :: k in opts ==> r[k] == opts[k]
  {
    map["source" := Sym("load_" + name)] + opts
  }

  /** The default source is the method `load_<name>`, which a context defining it answers. */
  lemma DefaultSourceResolves(name: string, opts: map<string, Value>, methods: map<string, ContextMethod>, ctx: Value)
    requires "source" !in opts && "load_" + name in methods
    ensures var m := methods["load_" + name];
      var r := LoadFromContext(WithDefaultSource(name, opts), methods, ctx);
      (-1 <= m.arity <= 1 ==> r == Shape(m.body(ContextArgs(ctx, m.arity)), LoadedMode(WithDefaultSource(name, opts)))) &&
      (m.arity >= 2 || m.arity <= -2 ==> r == Err(ArgumentError(WrongArity)))
  {
    assert SourceName(WithDefaultSource(name, opts)) == Ok("load_" + name);
  }

  /** A Loaded class: its options, copied from the parent class and then merged into. */
  class LoadedClass {
    var options: map<string, Value>

    constructor Inherit(parent: LoadedClass?)
      ensures parent != null ==> options == parent.options
      ensures parent == null ==> options == map[]
    {
      options := if parent != null then parent.options else map[];
    }

    /** `options(hash)`: `merge!`, the given values winning. */
    method Options(hash: map<string, Value>)
      modifies this`options
      ensures options == old(options) + hash
    {
      options := options + hash;
    }

    /** `default_value`: the `:default` option, or nil. */
    function DefaultValue(): (v: Value)
      reads this
      ensures "default" in options ==> v == options["default"]
      ensures "default" !in options ==> v == Nil
    {
      Loaders.Opt(options, "default")
    }

    /** `load(collection_context)`. */
    function Load(methods: map<string, ContextMethod>, ctx: Value): Result<Value>
      reads this
    {
      LoadFromContext(options, methods, ctx)
    }
  }

  /** The reader `loaded` prepends onto the model, called on a record whose
      `_datasource_loaded` is `loaded` (None for nil): the loaded entry for `name`; a loaded map
      without it fails; with no loaded map the call falls through to the model's own method
      (`superValue`, None when there is none) and otherwise to `method_missing`. */
  function LoadedReader(loaded: Option<map<string, Value>>, name: string, superValue: Option<Value>): (r: Result<Value>)
    ensures loaded.Some? && name in loaded.value ==> r == Ok(loaded.value[name])
    ensures loaded.Some? && name !in loaded.value ==> r == Err(DatasourceError("loader " + name + " called but was not selected"))
    ensures loaded.None? && superValue.Some? ==> r == Ok(superValue.value)
    ensures loaded.None? && superValue.None? ==> r == Err(NoMethodError(name))
  {
    match loaded
    case Some(m) =>
      if name in m then Ok(m[name]) else Err(DatasourceError("loader " + name + " called but was not selected"))
    case None =>
      match superValue
      case Some(v) => Ok(v)
      case None => Err(NoMethodError(name))
  }

  /** `loaded(name, options)` as loaded.rb declares it: a Loaded class whose source defaults to
      `load_<name>` is registered under `name`, the reader is prepended onto the model (a method
      of the same name is overridden, not refused), and `computed name, loader: name` registers
      the attribute. */
  method DefineLoaded(reg: DatasourceClass, name: string, opts: map<string, Value>) returns (klass: LoadedClass)
    requires reg.Valid()
    modifies reg`loaders, reg`modelMethods, reg`attributes
    ensures fresh(klass) && klass.options == WithDefaultSource(name, opts)
    ensures reg.Valid()
    ensures reg.loaders == old(reg.loaders)[name := LoaderSpec(ContextLoader, WithDefaultSource(name, opts))]
    ensures reg.modelMethods == old(reg.modelMethods) + {name}
    ensures FindAttribute(reg.attributes, name) == Some(Attribute(name, Computed([Dependency(LoaderKey, [name])])))
    ensures forall n :: n != name ==> FindAttribute(reg.attributes, n) == FindAttribute(old(reg.attributes), n)
  {
    klass := new LoadedClass.Inherit(null);
    klass.Options(WithDefaultSource(name, opts));
    reg.RegisterLoader(name, LoaderSpec(ContextLoader, klass.options));
    reg.DefineModelMethod(name);
    var computed := DefineComputed(reg, name, [Dependency(LoaderKey, [name])]);
    assert computed.depends == [Dependency(LoaderKey, [name])] by {
      assert DeepMerge([], [Dependency(LoaderKey, [name])]) == DeepMerge(MergeEntry([], Dependency(LoaderKey, [name])), []);
    }
  }
}
