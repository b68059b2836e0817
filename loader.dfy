/** `Attributes::Loader`: a batch loader declared with `loader name, options do |...| ... end`, its
    class-level options, the argument truncation and result shaping of `load`, and the two
    declarations `loader` and (the block-based) `loaded`. */
module Loaders {
  import opened Values
  import opened Registry
  import opened LoadShaping
  import opened Grouping
  import opened ComputedAttributes

  /** `options[key]`: the stored option, or nil. */
  function Opt(options: map<string, Value>, key: string): Value {
    if key in options then options[key] else Nil
  }

  /** The shaping a Loader's options select: `group_by` (with or without `one`) first, then
      `array_to_hash`, else none; each option counts when it is truthy. */
  function LoaderMode(options: map<string, Value>): (mode: ShapeMode)
    ensures Truthy(Opt(options, "group_by")) ==> mode.GroupOne? || mode.GroupMany?
    ensures Truthy(Opt(options, "group_by")) ==> mode.groupBy == Opt(options, "group_by")
    ensures mode.GroupOne? <==> Truthy(Opt(options, "group_by")) && Truthy(Opt(options, "one"))
    ensures mode.PairsToHash? <==> !Truthy(Opt(options, "group_by")) && Truthy(Opt(options, "array_to_hash"))
    ensures mode.AsIs? <==> !Truthy(Opt(options, "group_by")) && !Truthy(Opt(options, "array_to_hash"))
  {
    var g := Opt(options, "group_by");
    if Truthy(g) then (if Truthy(Opt(options, "one")) then GroupOne(g) else GroupMany(g))
    else if Truthy(Opt(options, "array_to_hash")) then PairsToHash
    else AsIs
  }

  /** `args.slice(0, arity) if arity >= 0`: a block with a fixed arity sees at most that many
      leading arguments; a variadic block sees them all. */
  function ProcArgs(args: seq<Value>, arity: int): (r: seq<Value>)
    ensures |r| <= |args| && r == args[..|r|]
    ensures arity >= 0 ==> |r| == if arity < |args| then arity else |args|
    ensures arity < 0 ==> r == args
  {
    if arity >= 0 && arity < |args| then args[..arity] else args
  }

  /** `Loader.load(*args)`: the block called with the truncated arguments, then shaped. A loader
      class with no block fails on `nil.arity`. */
  function LoadWith(options: map<string, Value>, proc: Option<LoadProc>, args: seq<Value>): Result<Value> {
    match proc
    case None => Err(NoMethodError("arity"))
    case Some(p) => Shape(p.body(ProcArgs(args, p.arity)), LoaderMode(options))
  }

  /** Without shaping options a loader returns exactly what its block returned for the truncated
      arguments. */
  lemma LoadWithoutOptionsIsRaw(p: LoadProc, args: seq<Value>)
    ensures LoadWith(map[], Some(p), args) == Ok(p.body(ProcArgs(args, p.arity)))
  {
    assert LoaderMode(map[]) == AsIs;
  }

  /** `options(group_by: :post_id, one: true)` on rows `{post_id: 1, n: 1}`, `{post_id: 1, n: 2}`:
      the single key 1 maps to the second row. */
  lemma GroupOneKeepsLastRow()
    ensures var r1 := Hash(map[Sym("post_id") := Int(1), Sym("n") := Int(1)]);
      var r2 := Hash(map[Sym("post_id") := Int(1), Sym("n") := Int(2)]);
      var opts := map["group_by" := Sym("post_id"), "one" := Bool(true)];
      LoadWith(opts, Some(LoadProc(1, (args: seq<Value>) => List([r1, r2]))), [List([Int(1)])])
        == Ok(Hash(map[Int(1) := r2]))
  {
    var r1 := Hash(map[Sym("post_id") := Int(1), Sym("n") := Int(1)]);
    var r2 := Hash(map[Sym("post_id") := Int(1), Sym("n") := Int(2)]);
    var items := [r1, r2];
    assert ByIndex(items);
    assert GroupKey(r1, true, Sym("post_id")) == Ok(Int(1));
    assert GroupKey(r2, true, Sym("post_id")) == Ok(Int(1));
    var ks := KeysOf(items, true, Sym("post_id"));
    assert ks.Ok? && |ks.value| == 2;
    assert ks.value[0] == Int(1) && ks.value[1] == Int(1);
    assert ks.value == [Int(1), Int(1)];
    assert LastWins(map[], [Int(1), Int(1)], items) == map[Int(1) := r2];
  }

  /** A Loader class: its options (copied from the parent class, then merged into) and its block. */
  class LoaderClass {
    var options: map<string, Value>
    var loadProc: Option<LoadProc>

    /** `inherited`: a copy of the parent's options (none for the base class); the block is not
        inherited. */
    constructor Inherit(parent: LoaderClass?)
      ensures parent != null ==> options == parent.options
      ensures parent == null ==> options == map[]
      ensures loadProc == None
    {
      options := if parent != null then parent.options else map[];
      loadProc := None;
    }

    /** `options(hash)`: `merge!`, the given values winning. */
    method Options(hash: map<string, Value>)
      modifies this`options
      ensures options == old(options) + hash
      ensures forall k :: k in hash ==> options[k] == hash[k]
      ensures forall k :: k in old(options) && k !in hash ==> options[k] == old(options)[k]
    {
      options := options + hash;
    }

    /** `default_value`: the `:default` option, or nil. */
    function DefaultValue(): (v: Value)
      reads this
      ensures "default" in options ==> v == options["default"]
      ensures "default" !in options ==> v == Nil
    {
      Opt(options, "default")
    }

    /** `load(*args)`. */
    function Load(args: seq<Value>): Result<Value>
      reads this
    {
      LoadWith(options, loadProc, args)
    }

    /** What the datasource class keeps under the loader's name. */
    function Spec(): (s: LoaderSpec)
      reads this
      ensures s.kind == ProcLoader(loadProc) && s.options == options
      ensures Registry.DefaultValue(s) == DefaultValue()
    {
      LoaderSpec(ProcLoader(loadProc), options)
    }
  }

  /** `loader(name, options, &block)`: a fresh Loader class holding `options` and the block,
      registered under `name` (replacing any earlier loader of that name). */
  method DefineLoader(reg: DatasourceClass, name: string, opts: map<string, Value>, proc: Option<LoadProc>)
    returns (klass: LoaderClass)
    modifies reg`loaders
    ensures fresh(klass) && klass.options == opts && klass.loadProc == proc
    ensures reg.loaders == old(reg.loaders)[name := LoaderSpec(ProcLoader(proc), opts)]
  {
    klass := new LoaderClass.Inherit(null);
    klass.Options(opts);
    klass.loadProc := proc;
    reg.RegisterLoader(name, klass.Spec());
  }

  /** The reader `loaded` (loader.rb) defines on the model: `loaded_values[name]`, which fails on a
      record whose loaded values were never set. */
  function LoaderReader(loadedValues: Option<map<string, Value>>, name: string): (r: Result<Value>)
    ensures r.Ok? <==> loadedValues.Some?
    ensures r.Ok? ==> r.value == Get(loadedValues.value, name)
  {
    match loadedValues
    case None => Err(NoMethodError("[]"))
    case Some(m) => Ok(Get(m, name))
  }

  /** `loaded(name, options, &block)` as loader.rb declares it: the loader is registered first;
      then, if the model already defines `name`, the declaration fails (the loader stays
      registered); otherwise the reader is defined and `computed name, loader: name` registers the
      attribute. */
  method DefineBlockLoaded(reg: DatasourceClass, name: string, opts: map<string, Value>, proc: Option<LoadProc>)
    returns (r: Result<()>)
    requires reg.Valid()
    modifies reg`loaders, reg`modelMethods, reg`attributes
    ensures reg.Valid()
    ensures reg.loaders == old(reg.loaders)[name := LoaderSpec(ProcLoader(proc), opts)]
    ensures r.Err? <==> name in old(reg.modelMethods)
    ensures r.Err? ==> reg.attributes == old(reg.attributes) && reg.modelMethods == old(reg.modelMethods)
    ensures r.Ok? ==> reg.modelMethods == old(reg.modelMethods) + {name}
    ensures r.Ok? ==>
      FindAttribute(reg.attributes, name) == Some(Attribute(name, Computed([Dependency(LoaderKey, [name])])))
    ensures r.Ok? ==> forall n :: n != name ==> FindAttribute(reg.attributes, n) == FindAttribute(old(reg.attributes), n)
  {
    var _ := DefineLoader(reg, name, opts, proc);
    if name in reg.modelMethods {
      return Err(RuntimeError(name + " already defined on " + reg.modelName + ", would be overridden by datasource loaded method"));
    }
    reg.DefineModelMethod(name);
    var klass := DefineComputed(reg, name, [Dependency(LoaderKey, [name])]);
    assert klass.depends == [Dependency(LoaderKey, [name])] by {
      assert DeepMerge([], [Dependency(LoaderKey, [name])]) == DeepMerge(MergeEntry([], Dependency(LoaderKey, [name])), []);
    }
    r := Ok(());
  }
}
