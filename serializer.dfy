/** The template serializer: a class-level DSL (`hash`, `array`, `key`, `datasource`,
    `attribute`) that walks a cursor over a tree of template parts, and `as_json`, which folds
    that tree into a value, handing one scope to each datasource part in traversal order. */
module Serializer {
  import opened Values

  /** A part's type: the symbol it was created with, or none yet (`nil`). */
  datatype PartType = Untyped | Typed(name: string)

  const HashType: PartType := Typed("hash")
  const ArrayType: PartType := Typed("array")
  const DatasourceType: PartType := Typed("datasource")

  /** A part's value: `nil`, a Hash of children by key, an Array of children, or a datasource
      class (by name). */
  datatype PartValue = NilValue | Entries(entries: seq<Entry>) | Items(items: seq<Part>) | Source(datasource: string)

  /** One key of a hash part. */
  datatype Entry = Entry(key: string, part: Part)

  /** `TemplatePart`: its type, its value and the attribute names selected on it. The parent
      link of the source is the cursor path below. */
  datatype Part = Part(kind: PartType, value: PartValue, select: seq<string>)

  /** How a type is written when interpolated into a message (`nil` interpolates as ""). */
  function TypeName(t: PartType): string {
    if t.Typed? then t.name else ""
  }

  /** `get_default_value(type, value)`. */
  function DefaultValue(t: PartType, value: Option<string>): (r: Result<PartValue>)
    ensures r.Ok? <==> t in {Untyped, HashType, ArrayType, DatasourceType}
    ensures t == HashType ==> r == Ok(Entries([]))
    ensures t == ArrayType ==> r == Ok(Items([]))
    ensures t == DatasourceType ==> r == Ok(if value.Some? then Source(value.value) else NilValue)
    ensures t == Untyped ==> r == Ok(NilValue)
    ensures r.Err? ==> r.error == RuntimeError("Unknown type " + TypeName(t))
  {
    if t == HashType then Ok(Entries([]))
    else if t == ArrayType then Ok(Items([]))
    else if t == DatasourceType then Ok(if value.Some? then Source(value.value) else NilValue)
    else if t == Untyped then Ok(NilValue)
    else Err(RuntimeError("Unknown type " + TypeName(t)))
  }

  /** The keys of a hash part, in insertion order. */
  function Keys(es: seq<Entry>): seq<string> {
    if |es| == 0 then [] else [es[0].key] + Keys(es[1..])
  }

  /** `hash[key]` on a hash part's children. */
  function EntryPart(es: seq<Entry>, key: string): Option<Part> {
    if |es| == 0 then None
    else if es[0].key == key then Some(es[0].part)
    else EntryPart(es[1..], key)
  }

  /** `hash[key] = part`: an existing key keeps its place and gets the new part, a new key is
      appended. */
  function SetEntry(es: seq<Entry>, key: string, p: Part): (r: seq<Entry>)
    ensures EntryPart(r, key) == Some(p)
    ensures forall k :: k != key ==> EntryPart(r, k) == EntryPart(es, k)
    ensures Keys(r) == if key in Keys(es) then Keys(es) else Keys(es) + [key]
  {
    if |es| == 0 then [Entry(key, p)]
    else if es[0].key == key then [Entry(key, p)] + es[1..]
    else
      var rest := SetEntry(es[1..], key, p);
      assert ([es[0]] + rest)[1..] == rest;
      [es[0]] + rest
  }

  /** The part under a key, or the item at an index. */
  datatype Step = KeyStep(key: string) | ItemStep(index: nat)

  /** A cursor: the steps from the root template to a part. */
  type Path = seq<Step>

  function Child(p: Part, s: Step): Option<Part> {
    match s
    case KeyStep(k) => if p.value.Entries? then EntryPart(p.value.entries, k) else None
    case ItemStep(i) => if p.value.Items? && i < |p.value.items| then Some(p.value.items[i]) else None
  }

  /** `p` with its existing child at `s` replaced by `c`. */
  function WithChild(p: Part, s: Step, c: Part): Part {
    match s
    case KeyStep(k) => if p.value.Entries? then p.(value := Entries(SetEntry(p.value.entries, k, c))) else p
    case ItemStep(i) => if p.value.Items? && i < |p.value.items| then p.(value := Items(p.value.items[i := c])) else p
  }

  /** The part a cursor points at, if the path resolves. */
  function At(p: Part, path: Path): Option<Part>
    decreases |path|
  {
    if |path| == 0 then Some(p)
    else match Child(p, path[0])
      case None => None
      case Some(c) => At(c, path[1..])
  }

  /** The tree with the part at `path` replaced by `q`: the in-place update of the part the
      cursor points at. */
  function PutAt(p: Part, path: Path, q: Part): Part
    decreases |path|
  {
    if |path| == 0 then q
    else match Child(p, path[0])
      case None => p
      case Some(c) => WithChild(p, path[0], PutAt(c, path[1..], q))
  }

  /** The parent of the part a cursor points at; the root has none. */
  function Parent(path: Path): Option<Path> {
    if |path| == 0 then None else Some(path[..|path| - 1])
  }

  /** After replacing the part at a resolving path, that path resolves to the replacement. */
  lemma {:induction false} PutAtAt(p: Part, path: Path, q: Part)
    requires At(p, path).Some?
    ensures At(PutAt(p, path, q), path) == Some(q)
    decreases |path|
  {
    if |path| > 0 {
      var c := Child(p, path[0]).value;
      PutAtAt(c, path[1..], q);
      var s := path[0];
      assert Child(WithChild(p, s, PutAt(c, path[1..], q)), s) == Some(PutAt(c, path[1..], q));
    }
  }

  /** A path one step longer resolves to the child of what the path resolves to. */
  lemma {:induction false} AtSnoc(p: Part, path: Path, s: Step)
    ensures At(p, path + [s]) == (if At(p, path).Some? then Child(At(p, path).value, s) else None)
    decreases |path|
  {
    if |path| == 0 {
      assert ([] + [s])[1..] == [];
    } else {
      assert (path + [s])[0] == path[0] && (path + [s])[1..] == path[1..] + [s];
      if Child(p, path[0]).Some? {
        AtSnoc(Child(p, path[0]).value, path[1..], s);
      }
    }
  }

  /** What `with_new_cursor` leaves behind before running its block: the template, the cursor
      the block runs under, and the cursor restored afterwards (None for `nil`). */
  datatype Entered = Entered(template: Part, cursor: Path, restore: Option<Path>)

  /** `with_new_cursor(type, value)` up to its block, with the `:array` branch either as
      written (`pushes` false: `push` is sent to a `TemplatePart`, which has no such method) or
      as evidently intended (`pushes` true: the new part is appended to the array part). */
  function NewCursor(pushes: bool, template: Option<Part>, cursor: Option<Path>, t: PartType,
                     value: Option<string>): Result<Entered>
    decreases if cursor.Some? then |cursor.value| + 1 else 0
  {
    var dv :- DefaultValue(t, value);
    if template.None? then Ok(Entered(Part(t, dv, []), [], cursor))
    else if cursor.None? then Err(NoMethodError("type"))
    else match At(template.value, cursor.value)
      case None => Err(NoMethodError("type"))
      case Some(c) =>
        if c.kind == DatasourceType then NewCursor(pushes, template, Parent(cursor.value), t, value)
        else if c.kind == ArrayType then
          if !pushes || !c.value.Items? then Err(NoMethodError("push"))
          else Ok(Entered(PutAt(template.value, cursor.value, c.(value := Items(c.value.items + [Part(t, dv, [])]))),
                          cursor.value + [ItemStep(|c.value.items|)], cursor))
        else if c.kind == Untyped then
          Ok(Entered(PutAt(template.value, cursor.value, Part(t, dv, c.select)), cursor.value, cursor))
        else Err(RuntimeError("Invalid use of " + TypeName(t) + "."))
  }

  /** `with_new_cursor` as evidently intended; the DSL below uses this one. */
  function Enter(template: Option<Part>, cursor: Option<Path>, t: PartType, value: Option<string>): Result<Entered> {
    NewCursor(true, template, cursor, t, value)
  }

  /** `with_new_cursor` as written. */
  function EnterAsWritten(template: Option<Part>, cursor: Option<Path>, t: PartType, value: Option<string>): Result<Entered> {
    NewCursor(false, template, cursor, t, value)
  }

  /** Entering succeeds only for a known type, and the block then runs with the cursor on a part
      of the requested type holding its default value. The first structural call makes that part
      the root template and restores the old cursor; later calls restore the cursor they started
      from or one of its ancestors (after stepping out of a datasource part). */
  lemma {:induction false} NewCursorLands(pushes: bool, template: Option<Part>, cursor: Option<Path>, t: PartType,
                                          value: Option<string>)
    ensures var r := NewCursor(pushes, template, cursor, t, value);
      var dv := DefaultValue(t, value);
      (dv.Err? ==> r == Err(dv.error)) &&
      (r.Ok? ==> dv.Ok? && At(r.value.template, r.value.cursor).Some? &&
                 At(r.value.template, r.value.cursor).value.kind == t &&
                 At(r.value.template, r.value.cursor).value.value == dv.value) &&
      (template.None? && dv.Ok? ==> r == Ok(Entered(Part(t, dv.value, []), [], cursor))) &&
      (r.Ok? && template.Some? ==> cursor.Some? && r.value.restore.Some? &&
                                   r.value.restore.value <= cursor.value && r.value.restore.value <= r.value.cursor)
    decreases if cursor.Some? then |cursor.value| + 1 else 0
  {
    var r := NewCursor(pushes, template, cursor, t, value);
    var dv := DefaultValue(t, value);
    if dv.Err? || template.None? || cursor.None? || At(template.value, cursor.value).None? {
      return;
    }
    var c := At(template.value, cursor.value).value;
    if c.kind == DatasourceType {
      NewCursorLands(pushes, template, Parent(cursor.value), t, value);
      if r.Ok? {
        assert r.value.restore.value <= cursor.value[..|cursor.value| - 1];
      }
    } else if c.kind == ArrayType {
      if r.Ok? {
        var item := Part(t, dv.value, []);
        var arr := c.(value := Items(c.value.items + [item]));
        PutAtAt(template.value, cursor.value, arr);
        AtSnoc(r.value.template, cursor.value, ItemStep(|c.value.items|));
        assert Child(arr, ItemStep(|c.value.items|)) == Some(item);
      }
    } else if c.kind == Untyped {
      PutAtAt(template.value, cursor.value, Part(t, dv.value, c.select));
    }
  }

  /** The branches on the part under the cursor: an untyped part takes the new type and default
      value in place (keeping its select list) and the cursor stays; a hash part refuses with
      "Invalid use of …"; a datasource part hands the call to its parent. */
  lemma {:induction false} NewCursorBranches(pushes: bool, template: Part, cursor: Path, t: PartType, value: Option<string>)
    requires At(template, cursor).Some? && DefaultValue(t, value).Ok?
    ensures var c := At(template, cursor).value;
      var r := NewCursor(pushes, Some(template), Some(cursor), t, value);
      (c.kind == Untyped ==> r.Ok? && r.value.cursor == cursor && r.value.restore == Some(cursor) &&
                             At(r.value.template, cursor) == Some(Part(t, DefaultValue(t, value).value, c.select))) &&
      (c.kind == HashType ==> r == Err(RuntimeError("Invalid use of " + TypeName(t) + "."))) &&
      (c.kind == DatasourceType ==> r == NewCursor(pushes, Some(template), Parent(cursor), t, value))
  {
    var c := At(template, cursor).value;
    if c.kind == Untyped {
      PutAtAt(template, cursor, Part(t, DefaultValue(t, value).value, c.select));
    }
  }

  /** As written, any structural call under an array part raises NoMethodError for `push`. */
  lemma ArrayCursorAsWrittenFails(template: Part, cursor: Path, t: PartType, value: Option<string>)
    requires At(template, cursor).Some? && At(template, cursor).value.kind == ArrayType
    requires DefaultValue(t, value).Ok?
    ensures EnterAsWritten(Some(template), Some(cursor), t, value) == Err(NoMethodError("push"))
  {
  }

  /** As intended, a structural call under an array part appends a new item of the requested type
      to the array, runs its block on that item, and comes back to the array. */
  lemma ArrayCursorAppendsItem(template: Part, cursor: Path, t: PartType, value: Option<string>)
    requires At(template, cursor).Some? && At(template, cursor).value.kind == ArrayType
    requires At(template, cursor).value.value.Items?
    requires DefaultValue(t, value).Ok?
    ensures var c := At(template, cursor).value;
      var item := Part(t, DefaultValue(t, value).value, []);
      var r := Enter(Some(template), Some(cursor), t, value);
      r.Ok? && r.value.cursor == cursor + [ItemStep(|c.value.items|)] && r.value.restore == Some(cursor) &&
      At(r.value.template, cursor) == Some(c.(value := Items(c.value.items + [item]))) &&
      At(r.value.template, r.value.cursor) == Some(item)
  {
    var c := At(template, cursor).value;
    var item := Part(t, DefaultValue(t, value).value, []);
    var arr := c.(value := Items(c.value.items + [item]));
    var r := Enter(Some(template), Some(cursor), t, value);
    PutAtAt(template, cursor, arr);
    AtSnoc(r.value.template, cursor, ItemStep(|c.value.items|));
    assert Child(arr, ItemStep(|c.value.items|)) == Some(item);
  }

  const KeyOutsideHash: string := "Cannot use key outside hash."
  const NoDatasourceSelected: string := "No datasource selected - use \"select_datasource Klass\" first."

  /** The template after `key(name)` has created its child, before the block runs. */
  function KeyEntry(template: Option<Part>, cursor: Option<Path>, name: string): Result<Part> {
    if template.None? then Err(RuntimeError(KeyOutsideHash))
    else if cursor.None? then Err(NoMethodError("type"))
    else match At(template.value, cursor.value)
      case None => Err(NoMethodError("type"))
      case Some(c) =>
        if c.kind != HashType then Err(RuntimeError(KeyOutsideHash))
        else if !c.value.Entries? then Err(NoMethodError("[]="))
        else Ok(PutAt(template.value, cursor.value,
                      c.(value := Entries(SetEntry(c.value.entries, name, Part(Untyped, NilValue, []))))))
  }

  /** `key` needs a hash part under the cursor; it then puts a fresh untyped part under `name`
      (replacing one already there), keeps the hash's other keys, and the block runs one step
      further down. */
  lemma KeyEntrySpec(template: Option<Part>, cursor: Option<Path>, name: string)
    ensures var r := KeyEntry(template, cursor, name);
      (template.None? ==> r == Err(RuntimeError(KeyOutsideHash))) &&
      ((template.Some? && cursor.Some? && At(template.value, cursor.value).Some? &&
        At(template.value, cursor.value).value.kind != HashType) ==> r == Err(RuntimeError(KeyOutsideHash))) &&
      (r.Ok? ==>
        template.Some? && cursor.Some? && At(template.value, cursor.value).Some? &&
        var c := At(template.value, cursor.value).value;
        c.kind == HashType && c.value.Entries? &&
        At(r.value, cursor.value + [KeyStep(name)]) == Some(Part(Untyped, NilValue, [])) &&
        At(r.value, cursor.value).Some? && At(r.value, cursor.value).value.kind == HashType &&
        At(r.value, cursor.value).value.value.Entries? &&
        (forall k :: k != name ==>
           EntryPart(At(r.value, cursor.value).value.value.entries, k) == EntryPart(c.value.entries, k)))
  {
    var r := KeyEntry(template, cursor, name);
    if r.Ok? {
      var c := At(template.value, cursor.value).value;
      var h := c.(value := Entries(SetEntry(c.value.entries, name, Part(Untyped, NilValue, []))));
      PutAtAt(template.value, cursor.value, h);
      AtSnoc(r.value, cursor.value, KeyStep(name));
    }
  }

  /** The template after `attribute(name)`. */
  function AddAttribute(template: Option<Part>, cursor: Option<Path>, name: string): Result<Part> {
    if template.None? then Err(RuntimeError(NoDatasourceSelected))
    else if cursor.None? then Err(NoMethodError("type"))
    else match At(template.value, cursor.value)
      case None => Err(NoMethodError("type"))
      case Some(c) =>
        if c.kind != DatasourceType then Err(RuntimeError(NoDatasourceSelected))
        else Ok(PutAt(template.value, cursor.value, c.(select := c.select + [name])))
  }

  /** `attribute` needs a datasource part under the cursor and appends the name to its select
      list, changing nothing else about that part. */
  lemma AddAttributeSpec(template: Option<Part>, cursor: Option<Path>, name: string)
    ensures var r := AddAttribute(template, cursor, name);
      (template.None? ==> r == Err(RuntimeError(NoDatasourceSelected))) &&
      (template.Some? && cursor.Some? && At(template.value, cursor.value).Some? ==>
        var c := At(template.value, cursor.value).value;
        (r.Ok? <==> c.kind == DatasourceType) &&
        (r.Err? ==> r.error == RuntimeError(NoDatasourceSelected)) &&
        (r.Ok? ==> At(r.value, cursor.value) == Some(c.(select := c.select + [name]))))
  {
    var r := AddAttribute(template, cursor, name);
    if r.Ok? {
      var c := At(template.value, cursor.value).value;
      PutAtAt(template.value, cursor.value, c.(select := c.select + [name]));
    }
  }

  /** A DSL call inside a class body; blocks are the command lists they run. */
  datatype Command =
    | HashCmd(body: seq<Command>)
    | ArrayCmd(body: seq<Command>)
    | KeyCmd(name: string, body: seq<Command>)
    | DatasourceCmd(datasource: string)
    | AttributeCmd(name: string)

  function Size(c: Command): nat
    decreases c
  {
    match c
    case HashCmd(body) => 1 + SizeAll(body)
    case ArrayCmd(body) => 1 + SizeAll(body)
    case KeyCmd(_, body) => 1 + SizeAll(body)
    case _ => 1
  }

  function SizeAll(cs: seq<Command>): nat
    decreases cs
  {
    if |cs| == 0 then 0 else Size(cs[0]) + SizeAll(cs[1..])
  }

  lemma {:induction false} SizeAllElem(cs: seq<Command>, i: nat)
    requires i < |cs|
    ensures SizeAll(cs) >= 1
    ensures cs[i].HashCmd? || cs[i].ArrayCmd? || cs[i].KeyCmd? ==> SizeAll(cs[i].body) < SizeAll(cs)
    decreases i
  {
    if i > 0 {
      SizeAllElem(cs[1..], i - 1);
    }
  }

  /** How many `datasource` calls a command makes, its block included. */
  function DatasourceCallsOf(c: Command): nat
    decreases c
  {
    match c
    case HashCmd(body) => DatasourceCalls(body)
    case ArrayCmd(body) => DatasourceCalls(body)
    case KeyCmd(_, body) => DatasourceCalls(body)
    case DatasourceCmd(_) => 1
    case AttributeCmd(_) => 0
  }

  function DatasourceCalls(cs: seq<Command>): nat
    decreases cs
  {
    if |cs| == 0 then 0 else DatasourceCallsOf(cs[0]) + DatasourceCalls(cs[1..])
  }

  lemma {:induction false} DatasourceCallsAppend(a: seq<Command>, b: seq<Command>)
    ensures DatasourceCalls(a + b) == DatasourceCalls(a) + DatasourceCalls(b)
    decreases |a|
  {
    if |a| == 0 {
      assert a + b == b;
    } else {
      assert (a + b)[0] == a[0] && (a + b)[1..] == a[1..] + b;
      DatasourceCallsAppend(a[1..], b);
    }
  }

  /** `after` is `before` with `names` appended to the select list of the datasource part under
      the cursor. */
  ghost predicate Selected(before: Option<Part>, after: Option<Part>, cursor: Option<Path>, names: seq<string>) {
    before.Some? && after.Some? && cursor.Some? && At(before.value, cursor.value).Some? &&
    var c := At(before.value, cursor.value).value;
    c.kind == DatasourceType && At(after.value, cursor.value) == Some(c.(select := c.select + names))
  }

  lemma SelectedStep(before: Option<Part>, mid: Option<Part>, cursor: Option<Path>, names: seq<string>, name: string)
    requires (names == [] && mid == before) || Selected(before, mid, cursor, names)
    requires AddAttribute(mid, cursor, name).Ok?
    ensures Selected(before, Some(AddAttribute(mid, cursor, name).value), cursor, names + [name])
  {
    AddAttributeSpec(mid, cursor, name);
    var c := At(before.value, cursor.value).value;
    var ci := At(mid.value, cursor.value).value;
    assert ci == c.(select := c.select + names) by {
      if names == [] {
        assert c.select + names == c.select;
      }
    }
    assert c.select + (names + [name]) == (c.select + names) + [name];
  }

  /** The serializer class's DSL state: the template being built, the cursor into it and the
      number of `datasource` calls. */
  class SerializerClass {
    var template: Option<Part>
    var cursor: Option<Path>
    var datasourceCount: nat

    /** `inherited(base)`. */
    constructor Inherit()
      ensures template == None && cursor == None && datasourceCount == 0
    {
      template := None;
      cursor := None;
      datasourceCount := 0;
    }

    /** `with_new_cursor(type, value) { body }`: enter, run the block, restore the cursor. The
        result is the cursor at the end of the block, which is what `datasource`'s block returns.
        A failing block leaves the cursor where the failure happened. */
    method WithNewCursor(t: PartType, value: Option<string>, body: seq<Command>) returns (r: Result<Option<Path>>)
      modifies this
      decreases SizeAll(body), 2
      ensures old(template).Some? ==> template.Some?
      ensures var e := Enter(old(template), old(cursor), t, value);
        (e.Err? ==> r == Err(e.error) && template == old(template) && cursor == old(cursor) &&
                    datasourceCount == old(datasourceCount)) &&
        (r.Ok? ==> e.Ok? && template.Some? && cursor == e.value.restore &&
                   datasourceCount == old(datasourceCount) + DatasourceCalls(body)) &&
        (e.Ok? && body == [] ==> r == Ok(Some(e.value.cursor)) && template == Some(e.value.template))
    {
      var e := Enter(template, cursor, t, value);
      if e.Err? {
        return Err(e.error);
      }
      template, cursor := Some(e.value.template), Some(e.value.cursor);
      var b := Run(body);
      if b.Err? {
        return Err(b.error);
      }
      r := Ok(cursor);
      cursor := e.value.restore;
    }

    /** `hash { body }`. */
    method Hash(body: seq<Command>) returns (r: Result<()>)
      modifies this
      decreases SizeAll(body), 3
      ensures old(template).Some? ==> template.Some?
      ensures var e := Enter(old(template), old(cursor), HashType, None);
        (e.Err? ==> r == Err(e.error) && template == old(template) && cursor == old(cursor)) &&
        (r.Ok? ==> e.Ok? && template.Some? && cursor == e.value.restore &&
                   datasourceCount == old(datasourceCount) + DatasourceCalls(body))
    {
      var w := WithNewCursor(HashType, None, body);
      r := if w.Ok? then Ok(()) else Err(w.error);
    }

    /** `array { body }`. */
    method Array(body: seq<Command>) returns (r: Result<()>)
      modifies this
      decreases SizeAll(body), 3
      ensures old(template).Some? ==> template.Some?
      ensures var e := Enter(old(template), old(cursor), ArrayType, None);
        (e.Err? ==> r == Err(e.error) && template == old(template) && cursor == old(cursor)) &&
        (r.Ok? ==> e.Ok? && template.Some? && cursor == e.value.restore &&
                   datasourceCount == old(datasourceCount) + DatasourceCalls(body))
    {
      var w := WithNewCursor(ArrayType, None, body);
      r := if w.Ok? then Ok(()) else Err(w.error);
    }

    /** `key(name) { body }`: the body runs on the new child and the cursor comes back to the
        hash. */
    method Key(name: string, body: seq<Command>) returns (r: Result<()>)
      modifies this
      decreases SizeAll(body), 3
      ensures old(template).Some? ==> template.Some?
      ensures var k := KeyEntry(old(template), old(cursor), name);
        (k.Err? ==> r == Err(k.error) && template == old(template) && cursor == old(cursor) &&
                    datasourceCount == old(datasourceCount)) &&
        (r.Ok? ==> k.Ok? && cursor == old(cursor) && datasourceCount == old(datasourceCount) + DatasourceCalls(body)) &&
        (k.Ok? && body == [] ==> r == Ok(()) && template == Some(k.value))
    {
      var k := KeyEntry(template, cursor, name);
      if k.Err? {
        return Err(k.error);
      }
      var restore := cursor;
      template, cursor := Some(k.value), Some(cursor.value + [KeyStep(name)]);
      r := Run(body);
      if r.Ok? {
        cursor := restore;
      }
    }

    /** `datasource(ds)`: counts the call, then leaves the cursor on a datasource part holding
        `ds`. */
    method Datasource(ds: string) returns (r: Result<()>)
      modifies this
      decreases 0, 3
      ensures old(template).Some? ==> template.Some?
      ensures datasourceCount == old(datasourceCount) + 1
      ensures var e := Enter(old(template), old(cursor), DatasourceType, Some(ds));
        (r.Ok? <==> e.Ok?) &&
        (e.Err? ==> r == Err(e.error) && template == old(template) && cursor == old(cursor)) &&
        (e.Ok? ==> template == Some(e.value.template) && cursor == Some(e.value.cursor))
      ensures r.Ok? ==>
        template.Some? && cursor.Some? && At(template.value, cursor.value).Some? &&
        At(template.value, cursor.value).value.kind == DatasourceType &&
        At(template.value, cursor.value).value.value == Source(ds)
    {
      datasourceCount := datasourceCount + 1;
      NewCursorLands(true, template, cursor, DatasourceType, Some(ds));
      var w := WithNewCursor(DatasourceType, Some(ds), []);
      if w.Err? {
        return Err(w.error);
      }
      cursor := w.value;
      r := Ok(());
    }

    /** `attribute(name)`. */
    method Attribute(name: string) returns (r: Result<()>)
      modifies this`template
      ensures var a := AddAttribute(old(template), cursor, name);
        (a.Err? ==> r == Err(a.error) && template == old(template)) &&
        (a.Ok? ==> r == Ok(()) && template == Some(a.value))
    {
      var a := AddAttribute(template, cursor, name);
      if a.Err? {
        return Err(a.error);
      }
      template := Some(a.value);
      r := Ok(());
    }

    /** `attributes(*names)`: the names join the select list of the datasource part under the
        cursor, in order. */
    method Attributes(names: seq<string>) returns (r: Result<()>)
      modifies this`template
      ensures r.Ok? && names != [] ==> Selected(old(template), template, cursor, names)
      ensures names == [] ==> r == Ok(()) && template == old(template)
      ensures names != [] ==> (r.Ok? <==> AddAttribute(old(template), cursor, names[0]).Ok?)
      ensures r.Err? ==> names != [] && template == old(template) &&
                         r == Err(AddAttribute(old(template), cursor, names[0]).error)
    {
      var i := 0;
      while i < |names|
        invariant 0 <= i <= |names|
        invariant i == 0 ==> template == old(template)
        invariant i > 0 ==> Selected(old(template), template, cursor, names[..i])
        invariant i > 0 ==> AddAttribute(old(template), cursor, names[0]).Ok?
      {
        ghost var before := template;
        if i > 0 {
          AddAttributeSpec(template, cursor, names[i]);
        }
        var a := Attribute(names[i]);
        if a.Err? {
          return a;
        }
        SelectedStep(old(template), before, cursor, names[..i], names[i]);
        TakeSnoc(names, i);
        i := i + 1;
      }
      assert names[..i] == names;
      r := Ok(());
    }

    /** Runs the DSL calls of a class body or block in order, stopping at the first failure. */
    method Run(cmds: seq<Command>) returns (r: Result<()>)
      modifies this
      decreases SizeAll(cmds), 1
      ensures old(template).Some? ==> template.Some?
      ensures r.Ok? ==> datasourceCount == old(datasourceCount) + DatasourceCalls(cmds)
      ensures cmds == [] ==> r == Ok(()) && template == old(template) && cursor == old(cursor)
    {
      var i := 0;
      while i < |cmds|
        invariant 0 <= i <= |cmds|
        invariant cmds == [] ==> template == old(template) && cursor == old(cursor)
        invariant old(template).Some? ==> template.Some?
        invariant datasourceCount == old(datasourceCount) + DatasourceCalls(cmds[..i])
        decreases |cmds| - i
      {
        SizeAllElem(cmds, i);
        var s: Result<()>;
        match cmds[i] {
          case HashCmd(body) => s := Hash(body);
          case ArrayCmd(body) => s := Array(body);
          case KeyCmd(name, body) => s := Key(name, body);
          case DatasourceCmd(ds) => s := Datasource(ds);
          case AttributeCmd(name) => s := Attribute(name);
        }
        if s.Err? {
          return s;
        }
        assert [cmds[i]][1..] == [];
        DatasourceCallsAppend(cmds[..i], [cmds[i]]);
        TakeSnoc(cmds, i);
        i := i + 1;
      }
      assert cmds[..i] == cmds;
      r := Ok(());
    }
  }

  /** A class body that opens with a `datasource` call builds a root datasource part holding that
      class, with the cursor left on it. */
  method DatasourceRoot(ds: string) returns (klass: SerializerClass, r: Result<()>)
    ensures fresh(klass)
    ensures r.Ok? && klass.template == Some(Part(DatasourceType, Source(ds), [])) &&
            klass.cursor == Some([]) && klass.datasourceCount == 1
  {
    klass := new SerializerClass.Inherit();
    r := klass.Datasource(ds);
  }

  /** Decimal digits of a count, as `"#{n}"` writes them. */
  function NatString(n: nat): string
    decreases n
  {
    var digit := "0123456789"[n % 10];
    if n < 10 then [digit] else NatString(n / 10) + [digit]
  }

  /** `initialize(*scopes)`: a serializer needs exactly one scope per `datasource` call. */
  function CheckScopes(className: string, datasourceCount: nat, scopes: seq<Value>): (r: Result<()>)
    ensures r.Ok? <==> |scopes| == datasourceCount
    ensures r.Err? ==> r.error.ArgumentError?
  {
    if |scopes| != datasourceCount then
      Err(ArgumentError(className + " needs " + NatString(datasourceCount) + " scopes, you provided " +
                        NatString(|scopes|)))
    else Ok(())
  }

  /** `datasource.new(scope).select(*names).results`, which runs queries this model does not
      contain. */
  type RunDatasource = (string, Value, seq<string>) -> Result<Value>

  /** `@scopes.shift`: the first scope (nil once they are used up) and the rest. */
  function Shift(scopes: seq<Value>): (Value, seq<Value>) {
    if |scopes| == 0 then (Nil, []) else (scopes[0], scopes[1..])
  }

  /** `parse_template_part(part)` with the scope queue threaded through: the value and the
      scopes left. */
  function ParsePart(p: Part, scopes: seq<Value>, run: RunDatasource): Result<(Value, seq<Value>)>
    decreases p
  {
    if p.kind == HashType then
      match p.value
      case Entries(es) => ParseEntries(es, map[], scopes, run)
      case _ => Err(NoMethodError("each_pair"))
    else if p.kind == ArrayType then
      match p.value
      case Items(items) => ParseItems(items, [], scopes, run)
      case _ => Err(NoMethodError("map"))
    else if p.kind == DatasourceType then
      match p.value
      case Source(ds) =>
        var (scope, rest) := Shift(scopes);
        var v :- run(ds, scope, p.select);
        Ok((v, rest))
      case _ => Err(NoMethodError("new"))
    else Err(NameError("type"))
  }

  function ParseEntries(es: seq<Entry>, acc: map<Value, Value>, scopes: seq<Value>, run: RunDatasource)
    : Result<(Value, seq<Value>)>
    decreases es
  {
    if |es| == 0 then Ok((Hash(acc), scopes))
    else
      var first :- ParsePart(es[0].part, scopes, run);
      ParseEntries(es[1..], acc[Str(es[0].key) := first.0], first.1, run)
  }

  function ParseItems(items: seq<Part>, acc: seq<Value>, scopes: seq<Value>, run: RunDatasource)
    : Result<(Value, seq<Value>)>
    decreases items
  {
    if |items| == 0 then Ok((List(acc), scopes))
    else
      var first :- ParsePart(items[0], scopes, run);
      ParseItems(items[1..], acc + [first.0], first.1, run)
  }

  /** How many scopes a part consumes: one per datasource part reached through hash and array
      parts. */
  function DatasourceParts(p: Part): nat
    decreases p
  {
    if p.kind == HashType && p.value.Entries? then DatasourcePartsOf(p.value.entries)
    else if p.kind == ArrayType && p.value.Items? then DatasourcePartsIn(p.value.items)
    else if p.kind == DatasourceType then 1
    else 0
  }

  function DatasourcePartsOf(es: seq<Entry>): nat
    decreases es
  {
    if |es| == 0 then 0 else DatasourceParts(es[0].part) + DatasourcePartsOf(es[1..])
  }

  function DatasourcePartsIn(items: seq<Part>): nat
    decreases items
  {
    if |items| == 0 then 0 else DatasourceParts(items[0]) + DatasourcePartsIn(items[1..])
  }

  /** `n` shifts of the scope queue. */
  function Drop(scopes: seq<Value>, n: nat): seq<Value> {
    if n <= |scopes| then scopes[n..] else []
  }

  lemma DropDrop(scopes: seq<Value>, a: nat, b: nat)
    ensures Drop(Drop(scopes, a), b) == Drop(scopes, a + b)
  {
    if a <= |scopes| && b <= |scopes| - a {
      assert scopes[a..][b..] == scopes[a + b..];
    }
  }

  /** A successful parse consumes exactly one scope per datasource part. */
  lemma {:induction false} ParseConsumes(p: Part, scopes: seq<Value>, run: RunDatasource)
    ensures ParsePart(p, scopes, run).Ok? ==> ParsePart(p, scopes, run).value.1 == Drop(scopes, DatasourceParts(p))
    decreases p, 1
  {
    if p.kind == HashType && p.value.Entries? {
      ParseEntriesConsumes(p.value.entries, map[], scopes, run);
      assert Drop(scopes, 0) == scopes;
    } else if p.kind == ArrayType && p.value.Items? {
      ParseItemsConsumes(p.value.items, [], scopes, run);
      assert Drop(scopes, 0) == scopes;
    }
  }

  lemma {:induction false} ParseEntriesConsumes(es: seq<Entry>, acc: map<Value, Value>, scopes: seq<Value>,
                                                run: RunDatasource)
    ensures ParseEntries(es, acc, scopes, run).Ok? ==>
      ParseEntries(es, acc, scopes, run).value.1 == Drop(scopes, DatasourcePartsOf(es))
    decreases es, 0
  {
    if |es| == 0 {
      assert Drop(scopes, 0) == scopes;
    } else {
      ParseConsumes(es[0].part, scopes, run);
      var first := ParsePart(es[0].part, scopes, run);
      if first.Ok? {
        ParseEntriesConsumes(es[1..], acc[Str(es[0].key) := first.value.0], first.value.1, run);
        DropDrop(scopes, DatasourceParts(es[0].part), DatasourcePartsOf(es[1..]));
      }
    }
  }

  lemma {:induction false} ParseItemsConsumes(items: seq<Part>, acc: seq<Value>, scopes: seq<Value>, run: RunDatasource)
    ensures ParseItems(items, acc, scopes, run).Ok? ==>
      ParseItems(items, acc, scopes, run).value.1 == Drop(scopes, DatasourcePartsIn(items))
    decreases items, 0
  {
    if |items| == 0 {
      assert Drop(scopes, 0) == scopes;
    } else {
      ParseConsumes(items[0], scopes, run);
      var first := ParsePart(items[0], scopes, run);
      if first.Ok? {
        ParseItemsConsumes(items[1..], acc + [first.value.0], first.value.1, run);
        DropDrop(scopes, DatasourceParts(items[0]), DatasourcePartsIn(items[1..]));
      }
    }
  }

  /** A hash part parses to a Hash with the part's keys (as strings), an array part to an Array
      with one element per item. */
  lemma {:induction false} ParseShape(p: Part, scopes: seq<Value>, run: RunDatasource)
    ensures var r := ParsePart(p, scopes, run);
      (r.Ok? && p.kind == HashType ==>
         r.value.0.Hash? && p.value.Entries? &&
         forall k :: k in r.value.0.entries <==> k.Str? && k.s in Keys(p.value.entries)) &&
      (r.Ok? && p.kind == ArrayType ==> r.value.0.List? && p.value.Items? && |r.value.0.items| == |p.value.items|)
  {
    if p.kind == HashType && p.value.Entries? {
      ParseEntriesKeys(p.value.entries, map[], scopes, run);
    } else if p.kind == ArrayType && p.value.Items? {
      ParseItemsLength(p.value.items, [], scopes, run);
    }
  }

  lemma {:induction false} ParseEntriesKeys(es: seq<Entry>, acc: map<Value, Value>, scopes: seq<Value>, run: RunDatasource)
    ensures var r := ParseEntries(es, acc, scopes, run);
      r.Ok? ==> r.value.0.Hash? && forall k :: k in r.value.0.entries <==> k in acc || (k.Str? && k.s in Keys(es))
    decreases es
  {
    if |es| > 0 {
      var first := ParsePart(es[0].part, scopes, run);
      if first.Ok? {
        ParseEntriesKeys(es[1..], acc[Str(es[0].key) := first.value.0], first.value.1, run);
        assert Keys(es) == [es[0].key] + Keys(es[1..]);
      }
    }
  }

  lemma {:induction false} ParseItemsLength(items: seq<Part>, acc: seq<Value>, scopes: seq<Value>, run: RunDatasource)
    ensures var r := ParseItems(items, acc, scopes, run);
      r.Ok? ==> r.value.0.List? && |r.value.0.items| == |acc| + |items|
    decreases items
  {
    if |items| > 0 {
      var first := ParsePart(items[0], scopes, run);
      if first.Ok? {
        ParseItemsLength(items[1..], acc + [first.value.0], first.value.1, run);
      }
    }
  }

  /** Scopes go to datasource parts in traversal order: in a hash of two datasource parts, the
      first key's datasource gets the first scope and the second key's the second. */
  lemma TwoDatasourcesTakeScopesInOrder(k1: string, ds1: string, sel1: seq<string>, k2: string, ds2: string,
                                        sel2: seq<string>, s1: Value, s2: Value, run: RunDatasource)
    requires k1 != k2
    requires run(ds1, s1, sel1).Ok? && run(ds2, s2, sel2).Ok?
    ensures var p := Part(HashType, Entries([Entry(k1, Part(DatasourceType, Source(ds1), sel1)),
                                             Entry(k2, Part(DatasourceType, Source(ds2), sel2))]), []);
      ParsePart(p, [s1, s2], run) ==
        Ok((Hash(map[Str(k1) := run(ds1, s1, sel1).value, Str(k2) := run(ds2, s2, sel2).value]), []))
  {
    var p1 := Part(DatasourceType, Source(ds1), sel1);
    var p2 := Part(DatasourceType, Source(ds2), sel2);
    var es := [Entry(k1, p1), Entry(k2, p2)];
    var v1 := run(ds1, s1, sel1).value;
    var v2 := run(ds2, s2, sel2).value;
    assert [s1, s2][1..] == [s2] && [s2][1..] == [];
    assert ParsePart(p1, [s1, s2], run) == Ok((v1, [s2]));
    assert ParsePart(p2, [s2], run) == Ok((v2, []));
    var acc := map[Str(k1) := v1];
    assert es[1..][1..] == [] && es[1..][0] == Entry(k2, p2);
    assert ParseEntries(es[1..][1..], acc[Str(k2) := v2], [], run) == Ok((Hash(acc[Str(k2) := v2]), []));
    assert ParseEntries(es[1..], acc, [s2], run) == Ok((Hash(acc[Str(k2) := v2]), []));
    assert ParseEntries(es, map[], [s1, s2], run) == Ok((Hash(acc[Str(k2) := v2]), []));
    assert acc[Str(k2) := v2] == map[Str(k1) := v1, Str(k2) := v2];
  }

  /** A serializer instance: the template of its class and the scopes still to hand out. */
  class SerializerInstance {
    const template: Option<Part>
    var scopes: seq<Value>

    constructor (template: Option<Part>, scopes: seq<Value>)
      ensures this.template == template && this.scopes == scopes
    {
      this.template := template;
      this.scopes := scopes;
    }

    /** `as_json`: nil without a template, otherwise the parsed template; the scopes used up are
        shifted off. */
    method AsJson(run: RunDatasource) returns (r: Result<Value>)
      modifies this`scopes
      ensures template.None? ==> r == Ok(Nil) && scopes == old(scopes)
      ensures template.Some? ==>
        var p := ParsePart(template.value, old(scopes), run);
        (r.Ok? <==> p.Ok?) && (p.Err? ==> r == Err(p.error) && scopes == old(scopes)) &&
        (p.Ok? ==> r == Ok(p.value.0) && scopes == Drop(old(scopes), DatasourceParts(template.value)))
    {
      if template.None? {
        return Ok(Nil);
      }
      var p := ParsePart(template.value, scopes, run);
      if p.Err? {
        return Err(p.error);
      }
      ParseConsumes(template.value, scopes, run);
      scopes := p.value.1;
      r := Ok(p.value.0);
    }
  }

  /** `Klass.new(*scopes)`. */
  method New(klass: SerializerClass, className: string, scopes: seq<Value>) returns (r: Result<SerializerInstance>)
    ensures r.Ok? <==> |scopes| == klass.datasourceCount
    ensures r.Err? ==> r == Err(CheckScopes(className, klass.datasourceCount, scopes).error)
    ensures r.Ok? ==> fresh(r.value) && r.value.template == klass.template && r.value.scopes == scopes
  {
    var c := CheckScopes(className, klass.datasourceCount, scopes);
    if c.Err? {
      return Err(c.error);
    }
    var s := new SerializerInstance(klass.template, scopes);
    r := Ok(s);
  }
}
