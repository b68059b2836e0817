# datasource, modelled in Dafny

`datasource` lets a Ruby application declare, per model, which attributes a serializer may ask
for. Plain column attributes, computed attributes (with the tables and columns they depend on),
query attributes (a SQL expression selected under an alias), loaders (batched per-collection
lookups whose results are attached to every record) and included sub-datasources. From a
selection of names it compiles the SQL select list, checks that the scope joins every table a
dependency needs, fetches the rows, runs the loaders and assembles the rows.

This project models that core:

- `Values`: the Ruby values the library handles (`nil`, booleans, integers, strings, symbols,
  arrays, hashes, model records), `Array()`, `send`, `[]`, `uniq` and "append unless included".
- `Registry`: the per-class attribute, association and loader tables of `Datasource::Base`
  (`inherited`, `attribute`, `attributes`, `association`, `associations`).
- `ComputedAttributes`, `QueryAttributes`, `Loaders`, `LoadedAttributes`: the attribute and
  loader classes, their `depends` / `options` / `default_value`, the `load` result shaping
  (`group_by` with and without `one`, `array_to_hash` / `from: :array`, as-is) and the
  `computed`, `query_attribute`, `loader` and `loaded` declarations (in `LoadShaping` and
  `Grouping` the shaping itself).
- `JoinPattern` and `JoinCheck`: the `/join (\w+)/i` match and the join checks of the
  ActiveRecord and Sequel adapters.
- `SelectCompiler`, `ActiveRecordAdapter`, `SequelAdapter`: the adapters' `get_select_values`,
  `ensure_table_join!`, `included_datasource_rows` (shared in `IncludedRows`), the Sequel
  `to_orm_object` column filter and the ActiveRecord `Datasource.From` generator.
- `Base`: a `Datasource::Base` instance — `select` with `update_dependencies` (recursive over
  the computed attributes it exposes), `select_all`, `get_select_values`, `can_upgrade?`,
  `results` with its loader runs, `group_by_column` and `reflection_select`.
- `Legacy`: the older `Datasource` class of `lib/datasource.rb` — its class DSL, `select`,
  `append_required_select_values`, `check_table_join!` and `results` with included
  sub-datasources and row assembly.
- `Serializer`: the serializer DSL (`hash`, `array`, `key`, `datasource`, `attribute(s)`)
  building a template tree with a cursor, the scope-count check of `initialize` and `as_json`
  walking the template and consuming one scope per datasource.
- `CollectionContext`: the context handed to `loaded` loaders, with its memoised `model_ids`.

Mutable Ruby objects whose methods update their state are Dafny classes with `modifies`
clauses (the DSL classes, a `Base` or legacy datasource instance, the serializer class and
instance, the collection context, model records); the rest is functions over values, with
lemmas relating them. Behaviours of the code that the model keeps, and that a reader might not
expect:

- A computed attribute's `loader` dependency key is skipped only by the Sequel adapter
  (lib/datasource/adapters/sequel.rb:68,72; `SequelAdapter.LoaderDependencyIsSkipped`). The
  ActiveRecord adapter join-checks it and selects `loader.<name>`
  (lib/datasource/adapters/active_record.rb:90-97; `ActiveRecordAdapter.LoaderDependencyIsJoinChecked`),
  and so does the legacy class (lib/datasource.rb:226-235). `Base#update_dependencies` passes
  every key other than the scope table to `select` as an association selection
  (lib/datasource/base.rb:146-151), so a `loader` key succeeds only when `loader` is a declared
  association (`Base.Datasource.UpdateDependencies`).
- `Base#results` runs the loaders of each exposed computed attribute in turn
  (lib/datasource/base.rb:210-235), so a loader shared by two exposed attributes runs twice
  (`Base.Datasource.Results` returns one call per loader dependency, duplicates included).
- The missing-loader error names only the loader (lib/datasource/base.rb:232).
- Both join checks compare each join of the scope with the name of the attribute that needs
  the table, not with the table (lib/datasource/adapters/active_record.rb:113-121,
  lib/datasource.rb:247-257; `JoinCheck.ArJoinComparesAttributeName`).
- A row's loaded value is `loaded_values[id] || default` (lib/datasource/base.rb:228), so the
  default also replaces a stored `nil` or `false`; a loader returning something falsy stores
  nothing at all (lib/datasource/base.rb:221; `Base.LoadedEntry`, `Base.Datasource.RunLoader`).
- Exposing an attribute in `Base#select` checks joins only for query attributes
  (lib/datasource/base.rb:153-157). Computed attributes reach their other tables through
  association selections.

## Model

| member | source | states |
|---|---|---|
| Values.ArrayOf | lib/datasource/base.rb:102 | `Array(x)`: nil gives the empty list, an array itself, anything else a one-element list |
| Values.AppendUnique | lib/datasource.rb:214-216 | appending keeps the old list as a prefix, adds exactly `x`, and keeps a duplicate-free list duplicate-free |
| Values.Uniq | lib/datasource.rb:139 | `uniq` has no duplicates and the same members as its input |
| Values.UniqKeepsPrefix | lib/datasource.rb:139 | `(a + b).uniq` keeps `a` (when `a` has no duplicates) as a prefix and equals appending `b` element by element unless included |
| Values.Send | lib/datasource/collection_context.rb:14 | sending a reader succeeds exactly on a record holding that attribute and returns its value |
| Values.Index | lib/datasource/attributes/loader.rb:47 | `container[key]`: a Hash looks the key up, `nil`/`true`/`false` raise NoMethodError, and a String, Symbol or Integer receiver succeeds exactly on an Integer key (or, for a String or Symbol, a String key) |
| Values.StringIndexesAsChars | lib/datasource/attributes/loader.rb:47 | indexing a String or Symbol by an Integer is indexing the list of its one-character Strings: negative counts from the end, out of range is nil |
| Values.BitsRebuild | lib/datasource/attributes/loader.rb:47 | `Integer#[]` gives the bits of the number: the first `k` bits of any `0 <= n < 2^k` rebuild `n` |
| Values.MinusOneAllBits | lib/datasource/attributes/loader.rb:47 | `Integer#[]` on a negative number reads its two's-complement bits: every bit of -1 is 1 |
| Values.IndexExamples | lib/datasource/attributes/loader.rb:47 | `5[0]` is 1, `5[1]` is 0, `-1[3]` is 1, `true[0]` raises NoMethodError, `"ab"[-1]` is "b", `"ab"[2]` is nil, `"ab"["b"]` is "b", `:ab[0]` is "a" |
| Registry.LoaderDepends | lib/datasource/base.rb:219 | the loader names of a computed attribute are exactly the columns of its `loader` dependency entries |
| Registry.FindAttribute | lib/datasource/base.rb:211 | the attribute found carries the name looked up and is registered; none found means no attribute has that name |
| Registry.Names | lib/datasource/base.rb:89 | `_attributes.keys` lists every attribute's name, in order |
| Registry.PutAttributeSpec | lib/datasource/base.rb:55-58 | storing an attribute under its name keeps names unique, makes it the one found, leaves all other names alone, and adds an entry only for a new name |
| Registry.DatasourceClass.Inherit | lib/datasource/base.rb:7-11 | a subclass starts with copies of its parent's attributes, associations and loaders (empty for the first class) |
| Registry.DatasourceClass.DeclareAttribute | lib/datasource/base.rb:55-58 | `attribute name, klass` replaces or adds the entry for that name only |
| Registry.DatasourceClass.DeclareAttributes | lib/datasource/base.rb:43-45 | `attributes *names` makes each name a plain attribute and leaves other names unchanged |
| Registry.DatasourceClass.DeclareAssociation | lib/datasource/base.rb:51-53 | `association name` adds the name to the associations |
| Registry.DatasourceClass.DeclareAssociations | lib/datasource/base.rb:47-49 | `associations *names` adds every name |
| Registry.DatasourceClass.RegisterLoader | lib/datasource/attributes/loader.rb:66 | the loader table maps the name to the new loader, the rest unchanged |
| Registry.DatasourceClass.DefineModelMethod | lib/datasource/attributes/loaded.rb:84-86 | the model class gains a method of that name |
| ComputedAttributes.MergeEntrySpec | lib/datasource/attributes/computed_attribute.rb:13 | merging one table entry sets that table's columns and leaves every other table's alone |
| ComputedAttributes.DeepMergeSpec | lib/datasource/attributes/computed_attribute.rb:13 | `deep_merge!` keeps tables unique, the last entry for a table wins, and tables not mentioned keep their columns |
| ComputedAttributes.ComputedAttributeClass.Inherit | lib/datasource/attributes/computed_attribute.rb:7-9 | a subclass starts with its parent's dependencies and readers |
| ComputedAttributes.ComputedAttributeClass.Depends | lib/datasource/attributes/computed_attribute.rb:11-20 | each argument is deep-merged in order and a reader is defined for every column named |
| ComputedAttributes.AllColumnsMerge | lib/datasource/attributes/computed_attribute.rb:11-20 | the merged dependencies name no column that neither side named |
| ComputedAttributes.DependencyValue | lib/datasource/attributes/computed_attribute.rb:23-27 | a dependency reader exists exactly for declared columns and returns the row's value for it |
| ComputedAttributes.DefineComputed | lib/datasource/attributes/computed_attribute.rb:43-50 | `computed name, deps` registers a computed attribute under `name` with the merged dependencies, other names unchanged |
| QueryAttributes.QueryAttributeClass.Inherit | lib/datasource/attributes/query_attribute.rb:7-9 | a subclass starts with its parent's dependency tables |
| QueryAttributes.QueryAttributeClass.Depends | lib/datasource/attributes/query_attribute.rb:11-13 | `depends` appends the table names in order |
| QueryAttributes.DefineQueryAttribute | lib/datasource/attributes/query_attribute.rb:19-26 | `query_attribute name, deps` registers a query attribute under `name` with its select expression, other names unchanged |
| QueryAttributes.DependsTwiceKeepsDuplicates | lib/datasource/attributes/query_attribute.rb:11-13 | declaring the same table twice keeps it twice |
| Loaders.LoaderMode | lib/datasource/attributes/loader.rb:24-52 | the shaping is chosen by `group_by` (with `one` or not), then `array_to_hash`, else as-is |
| Loaders.ProcArgs | lib/datasource/attributes/loader.rb:21 | a proc receives the first `arity` arguments, or all of them for a negative arity |
| Loaders.LoadWithoutOptionsIsRaw | lib/datasource/attributes/loader.rb:20-52 | with no options the loader's result is the proc's own result |
| Loaders.GroupOneKeepsLastRow | lib/datasource/attributes/loader.rb:32-37 | `group_by` with `one` keeps the last row for a repeated key |
| Loaders.LoaderClass.Inherit | lib/datasource/attributes/loader.rb:8-10 | a subclass starts with its parent's options and no proc |
| Loaders.LoaderClass.Options | lib/datasource/attributes/loader.rb:12-14 | `options` merges the hash in, new keys winning |
| Loaders.LoaderClass.DefaultValue | lib/datasource/attributes/loader.rb:16-18 | the default is the `default` option, nil when absent |
| Loaders.LoaderClass.Spec | lib/datasource/attributes/loader.rb:60-65 | the registered loader carries the class's proc, options and default |
| Loaders.DefineLoader | lib/datasource/attributes/loader.rb:60-67 | `loader name, opts` registers a loader with those options and proc |
| Loaders.LoaderReader | lib/datasource/attributes/loader.rb:73-75 | the model method reads `loaded_values[name]`, failing when no values were loaded |
| Loaders.DefineBlockLoaded | lib/datasource/attributes/loader.rb:69-78 | `loaded` fails when the model already has the method; otherwise it registers the loader, the model method and a computed attribute depending on the loader |
| LoadShaping.KeysOf | lib/datasource/attributes/loader.rb:33-43 | the group keys exist exactly when every item answers the `group_by` key, and are those answers |
| LoadShaping.PairsOf | lib/datasource/attributes/loader.rb:45-49 | pairs are read from every item's elements 0 and 1; a failure names an item without them |
| LoadShaping.ShapeGroupOneSpec | lib/datasource/attributes/loader.rb:32-37 | grouping with `one` succeeds exactly when every item's key can be read, and then maps exactly the keys read, each to the last item with that key |
| LoadShaping.ShapeGroupManySpec | lib/datasource/attributes/loader.rb:38-43 | grouping without `one` succeeds exactly when every item's key can be read, and then maps exactly the keys read, each to the list of its items in input order |
| LoadShaping.GroupListsSpec | lib/datasource/attributes/loader.rb:39-43 | the groups have exactly the keys seen, each holding its items in input order |
| LoadShaping.GroupListsPermutation | lib/datasource/attributes/loader.rb:39-43 | the groups together hold every item exactly once |
| LoadShaping.ShapePairsSpec | lib/datasource/attributes/loader.rb:45-49 | `array_to_hash` succeeds exactly when every item has elements 0 and 1, and then maps exactly the first elements, each to the second element of its last pair |
| LoadShaping.StringPairSplits | lib/datasource/attributes/loader.rb:45-49 | a String item is a pair of its first two characters: `["ab"]` becomes `{"a" => "b"}` |
| LoadShaping.PairsHashKeys | lib/datasource/attributes/loader.rb:45-49 | the hash built from the pairs has exactly their first elements as keys |
| LoadShaping.PairsHashLast | lib/datasource/attributes/loader.rb:45-49 | each key holds the second element of the last pair with that first element |
| LoadShaping.ShapeAsIsSpec | lib/datasource/attributes/loader.rb:50-52 | without shaping options the result passes through unchanged |
| Grouping.GroupFoldSpec | lib/datasource/attributes/loader.rb:39-43 | the grouping fold has the old and the new keys, appending each item to its key's list |
| Grouping.ItemsWithKeyMembers | lib/datasource/adapters/active_record.rb:68-70 | an item belongs to a key's group exactly when it was given that key |
| Grouping.GroupsPartition | lib/datasource/adapters/active_record.rb:68-70 | `group_by` over distinct keys partitions the items |
| Grouping.LastWinsSpec | lib/datasource/base.rb:66-70 | the inject into a hash maps each key to the value of its last occurrence and keeps earlier keys |
| LoadedAttributes.LoadedMode | lib/datasource/attributes/loaded.rb:24-52 | `group_by` (with `one` or not), then `from: :array`, else as-is |
| LoadedAttributes.ContextArgs | lib/datasource/attributes/loaded.rb:21 | the source method receives the context exactly when its arity is at least one |
| LoadedAttributes.LoadFromContext | lib/datasource/attributes/loaded.rb:19-53 | a missing source method raises NameError; one of arity at least 2 or at most -2 raises ArgumentError, since the call passes it the context alone or nothing; otherwise the source's result, shaped |
| LoadedAttributes.WithDefaultSource | lib/datasource/attributes/loaded.rb:64 | `reverse_merge(source: :load_<name>)` adds the default source only when none is given and keeps every option |
| LoadedAttributes.DefaultSourceResolves | lib/datasource/attributes/loaded.rb:60-66 | without a `source` option the loader calls the context's `load_<name>` |
| LoadedAttributes.LoadedClass.Inherit | lib/datasource/attributes/loaded.rb:7-9 | a subclass starts with its parent's options |
| LoadedAttributes.LoadedClass.Options | lib/datasource/attributes/loaded.rb:11-13 | `options` merges the hash in |
| LoadedAttributes.LoadedClass.DefaultValue | lib/datasource/attributes/loaded.rb:15-17 | the default is the `default` option, nil when absent |
| LoadedAttributes.LoadedReader | lib/datasource/attributes/loaded.rb:68-82 | the prepended reader returns the loaded value, raises when loading happened without this name, else falls back to the model's own method or `method_missing` |
| LoadedAttributes.DefineLoaded | lib/datasource/attributes/loaded.rb:60-88 | `loaded` registers a context loader with the default source, the model method, and a computed attribute depending on the loader |
| JoinPattern.JoinCaptureSpec | lib/datasource.rb:252 | the capture is absent exactly when no position matches `join (\w+)` case-insensitively, and is otherwise the maximal word run after the first match |
| JoinPattern.UpperCaseJoinCaptures | lib/datasource.rb:252 | `INNER JOIN posts` captures `posts`: the keyword is read case-insensitively |
| JoinPattern.TwoSpacesDoNotMatch | lib/datasource.rb:252 | `join  authors` (two spaces) does not match |
| JoinCheck.FindArJoin | lib/datasource/adapters/active_record.rb:113-121 | the join found matches the attribute's name; none found means no join matches |
| JoinCheck.EnsureArJoin | lib/datasource/adapters/active_record.rb:112-123 | the check passes exactly when some join (a symbol, or a string capturing a name) names the attribute, else "does not join on <table>" |
| JoinCheck.ArJoinIgnoresTable | lib/datasource/adapters/active_record.rb:113-122 | whether the check passes does not depend on the required table |
| JoinCheck.ArJoinComparesAttributeName | lib/datasource/adapters/active_record.rb:117-118 | a scope joining `posts` passes the check for an attribute named `posts` and fails it for one named `post_count` |
| JoinCheck.EnsureSequelJoinAsWritten | lib/datasource/adapters/sequel.rb:94-99 | the check as written never passes |
| JoinCheck.EnsureSequelJoin | lib/datasource/adapters/sequel.rb:94-99 | the intended check passes exactly when some join's alias, or else its table, is the attribute's name |
| JoinCheck.FindSequelJoin | lib/datasource/adapters/sequel.rb:95-97 | the join found has the attribute's name; none found means none has it |
| JoinCheck.SequelJoinAsWrittenRejectsJoinedScope | lib/datasource/adapters/sequel.rb:95 | a dataset joined on `authors` passes the intended check and raises TypeError as written |
| JoinCheck.SequelAliasWins | lib/datasource/adapters/sequel.rb:96 | an alias takes precedence over its table |
| IncludedRows.ChildSelect | lib/datasource/adapters/active_record.rb:58-61 | the child select list is the requested one plus the foreign key when missing |
| Grouping.ColumnValues | lib/datasource/adapters/active_record.rb:65-70 | the parent ids and the child rows' group keys are each row's value in the given column, one per row, in order |
| IncludedRows.StripRows | lib/datasource/adapters/active_record.rb:73-75 | every child row loses the foreign key |
| IncludedRows.StripGroups | lib/datasource/adapters/active_record.rb:71-77 | the groups keep their keys and each loses the foreign key |
| IncludedRows.IncludedDatasourceRowsSpec | lib/datasource/adapters/active_record.rb:57-79 | the child query filters on `<table>.<fk>` over the parent ids and selects the foreign key; the groups partition the child rows by foreign key; an unrequested foreign key is stripped |
| SelectCompiler.TablesOf | lib/datasource/adapters/active_record.rb:90 | the dependency tables in order |
| SelectCompiler.CheckTables | lib/datasource/adapters/active_record.rb:90-93 | the join check passes exactly when every table other than the scope's and the skipped ones is joined; an error names such a table |
| SelectCompiler.Qualified | lib/datasource/adapters/active_record.rb:95-97 | each column prefixed by its table |
| SelectCompiler.DependencyColumnsSpec | lib/datasource/adapters/active_record.rb:94-99 | the dependency columns are exactly `table.column` for each non-skipped entry |
| SelectCompiler.CompileFromSpec | lib/datasource/adapters/active_record.rb:85-108 | compiling keeps the accumulated list as a prefix, stays duplicate-free, and fails exactly when an exposed attribute's join check fails |
| SelectCompiler.SelectListSpec | lib/datasource/adapters/active_record.rb:81-110 | the select list starts with `<table>.id`, is duplicate-free, and fails exactly on a missing join |
| SelectCompiler.ComputedContributionSpec | lib/datasource/adapters/active_record.rb:89-99 | a computed attribute contributes its dependency columns once its tables are joined |
| SelectCompiler.QueryContributionSpec | lib/datasource/adapters/active_record.rb:100-105 | a query attribute contributes `(<expr>) as <name>` once its tables are joined |
| SelectCompiler.AddAll | lib/datasource/adapters/active_record.rb:94-98 | adding to the set one value at a time is appending unless included |
| SelectCompiler.Compile | lib/datasource/adapters/active_record.rb:81-110 | the loop over the attributes computes the select list |
| SelectCompiler.SelectListMembers | lib/datasource/adapters/active_record.rb:81-110 | a value is selected exactly when it is the id column or the contribution of an exposed attribute |
| SelectCompiler.CompileFromError | lib/datasource/adapters/active_record.rb:122 | a failure names a table and an exposed attribute that needed it |
| SelectCompiler.SelectListError | lib/datasource/adapters/active_record.rb:122 | a failed select list names an exposed attribute and a table |
| ActiveRecordAdapter.GetSelectValues | lib/datasource/adapters/active_record.rb:81-110 | the select list over the model's table, duplicate-free with the id first, succeeding exactly when every exposed attribute needing a join has one |
| ActiveRecordAdapter.EnsureTableJoin | lib/datasource/adapters/active_record.rb:112-123 | passes exactly when a join of the scope names the attribute |
| ActiveRecordAdapter.LoaderDependencyIsJoinChecked | lib/datasource/adapters/active_record.rb:89-97 | a loader dependency is join-checked and selected like a table |
| ActiveRecordAdapter.IncludedDatasourceRows | lib/datasource/adapters/active_record.rb:57-79 | the child rows grouped by foreign key under the child model's table, the key stripped when not requested |
| ActiveRecordAdapter.KeptColumns | lib/datasource/adapters/active_record.rb:130-133 | the generated datasource keeps exactly the columns not skipped |
| ActiveRecordAdapter.From | lib/datasource/adapters/active_record.rb:126-136 | `Datasource.From(Model)` declares every non-skipped column as a plain attribute and nothing else |
| SequelAdapter.EnsureTableJoin | lib/datasource/adapters/sequel.rb:94-99 | the corrected check of the sequel.rb:95 finding: passes exactly when a join's alias or table is the attribute's name |
| SequelAdapter.GetSelectValues | lib/datasource/adapters/sequel.rb:56-88 | the corrected select list, using the corrected join check of the sequel.rb:95 finding: over the first source alias, skipping the `loader` key, duplicate-free with the id first, succeeding exactly when every needed join exists |
| SequelAdapter.LoaderDependencyIsSkipped | lib/datasource/adapters/sequel.rb:66-75 | a computed attribute depending only on loaders compiles in any dataset and adds no column |
| SequelAdapter.IncludedDatasourceRows | lib/datasource/adapters/sequel.rb:27-49 | the child rows grouped by foreign key under the child dataset's alias, the key stripped when not requested |
| SequelAdapter.OrmAttributes | lib/datasource/adapters/sequel.rb:16-18 | the model receives exactly the row's model columns other than `id` |
| SequelAdapter.OrmAttributesIdempotent | lib/datasource/adapters/sequel.rb:17 | filtering twice is filtering once, and a row of non-id model columns passes unchanged |
| Base.Datasource.constructor | lib/datasource/base.rb:76-86 | a new instance sees its class's registry and the given scope, and exposes nothing |
| Base.Datasource.SelectAll | lib/datasource/base.rb:88-90 | `select_all` exposes every attribute name |
| Base.Datasource.ExposeName | lib/datasource/base.rb:110-115 | a name is pushed exactly when not already exposed |
| Base.Datasource.ExposeAssociation | lib/datasource/base.rb:99-103 | an association's selection becomes `(old + Array(sel)).uniq` |
| Base.Datasource.SelectAssociations | lib/datasource/base.rb:97-108 | every pair of a Hash argument is recorded, and the first unknown association raises |
| Base.Datasource.ExposeArg | lib/datasource/base.rb:96-120 | one argument takes effect, or an unknown name raises, and only newly exposed names are reported |
| Base.NewNamesSpec | lib/datasource/base.rb:96-121 | what the argument loop pushes is exactly the name arguments not already exposed, each once |
| Base.ExposeOutcome | lib/datasource/base.rb:96-121 | where the loop stopped decides the special cases: an unknown first name stops it before any push, an unknown name at any position stops it at or before that position with every earlier argument applied, arguments that are all exposed names push nothing and cannot fail, and one new known name is pushed alone |
| Base.ExposeBounded | lib/datasource/base.rb:110-115 | the loop exposes nothing but name arguments |
| Base.Datasource.ExposeNext | lib/datasource/base.rb:96-120 | one turn of the loop: on success the pushed names extend by the argument's own contribution and every argument so far has taken effect; only an unknown name or association raises, an unknown name with the missing-attribute error and without touching the association selections |
| Base.Datasource.ExposeArgs | lib/datasource/base.rb:96-121 | the loop stops at the first argument that raises, which is never a known name, after every earlier argument took effect; the exposed names grow by exactly the not-yet-exposed name arguments before that point, each once, in first-occurrence order; an unknown name raises the missing-attribute error; all-exposed arguments leave the association selections alone |
| Base.Datasource.Select | lib/datasource/base.rb:92-125 | after a successful `select` every argument has taken effect and every attribute it exposed, directly or through dependencies, is settled (its dependency entries selected, its joins present); exposed names only grow, and every name it exposes, whatever the outcome, is one of its name arguments or a scope-table dependency column of a computed attribute now exposed; an unknown first name raises and changes nothing, an unknown name anywhere raises; re-selecting exposed names changes nothing |
| Base.Datasource.UpdateDependencies | lib/datasource/base.rb:138-160 | on success every named attribute is settled (a computed one's columns exposed for the scope table or selected on an association, a query one joined), and so is every attribute exposed meanwhile; it fails only on a computed dependency or a missing join; every name it exposes is a scope-table dependency column of a named computed attribute or of one exposed meanwhile |
| Base.Datasource.UpdateAttribute | lib/datasource/base.rb:142-158 | one named attribute becomes settled; only a computed attribute changes the selections, and then exposes only its own scope-table dependency columns and those of computed attributes exposed meanwhile; a plain or included one always passes, and a query one passes exactly when joined |
| Base.Datasource.EnsureJoins | lib/datasource/base.rb:154-157 | passes exactly when the attribute is joined or names only the scope table; otherwise raises the missing-join error for one of its other tables |
| Base.Datasource.SelectDependencies | lib/datasource/base.rb:146-152 | every dependency entry ends up selected, every attribute exposed meanwhile is settled, and what gets exposed is the entries' scope-table columns or dependency columns of computed attributes exposed meanwhile |
| Base.Datasource.SelectDependency | lib/datasource/base.rb:147-151 | one dependency entry ends up selected (columns exposed, or held by the association's selection), every attribute exposed meanwhile is settled, and only the entry's own columns (scope table only) or dependency columns of computed attributes exposed meanwhile get exposed |
| Base.Datasource.GetSelectValues | lib/datasource/base.rb:162-180 | the corrected select list: id column, plain columns, query expressions of exposed attributes |
| Base.Datasource.CanUpgrade | lib/datasource/base.rb:187-201 | true exactly when every record has every exposed query attribute; an unknown exposed name raises |
| Base.Datasource.RunLoader | lib/datasource/base.rb:219-233 | a missing loader raises; otherwise it is called with the ids and, when its result is truthy, every row stores its entry or the default |
| Base.Datasource.RunLoaders | lib/datasource/base.rb:219-234 | the loader dependencies run in order, one call each, every truthy result stored on every row |
| Base.Datasource.ResultsFor | lib/datasource/base.rb:210-235 | with rows, an unknown exposed name raises, and otherwise there is one loader call per loader dependency of the attribute, each truthy result stored and earlier ones kept |
| Base.Datasource.Results | lib/datasource/base.rb:207-239 | without rows it is exactly the existence check of the exposed names; with rows, one loader call per loader dependency of each exposed computed attribute, duplicates included, all truthy results stored |
| Base.KnownNames | lib/datasource/base.rb:210-212 | passes exactly when every exposed name is registered |
| Base.KnownNamesFirstUnknown | lib/datasource/base.rb:210-212 | a failing check raises the error naming the first unregistered exposed name |
| Base.RecordIds | lib/datasource/base.rb:221 | `rows.map(&:id)` exists exactly when every record has an id, in order |
| Base.LoadedEntry | lib/datasource/base.rb:228 | a row's entry is the loader result at its id when truthy, else the default |
| Base.StringResultEntry | lib/datasource/base.rb:228 | a String loader result is indexed by the row's id as a character index; an index past its end falls back to the default |
| Base.ResetLoaded | lib/datasource/base.rb:222-226 | every row's loaded values become empty |
| Base.StoreEach | lib/datasource/base.rb:227-229 | every row stores its entry under the loader's name, keeping the other entries |
| Base.BaseCompileFromSpec | lib/datasource/base.rb:169-177 | the accumulated list stays a duplicate-free prefix and gains exactly the exposed contributions |
| Base.BaseSelectListSpec | lib/datasource/base.rb:162-180 | the select list starts with `<table>.id`, is duplicate-free, and holds exactly the exposed plain columns and query expressions |
| Base.GetSelectValuesAsWritten | lib/datasource/base.rb:169-176 | as written the select list raises NoMethodError exactly when a query attribute is exposed |
| Base.QueryAttributeBreaksSelectValues | lib/datasource/base.rb:173-174 | exposing one query attribute raises as written, and the corrected list holds its expression |
| Base.QueryAttributeNames | lib/datasource/base.rb:188-193 | the exposed query attributes, raising on an unknown exposed name |
| Base.GroupByColumn | lib/datasource/base.rb:65-71 | the map has exactly the column values seen, each mapped to the last row with it, the column removed on request |
| Base.ReflectionSelect | lib/datasource/base.rb:31-40 | `belongs_to` adds the foreign key to the parent select, `has_many`/`has_one` to the association's, anything else raises |
| Legacy.LegacyRegistry.Inherit | lib/datasource.rb:44-46 | a subclass starts with a copy of its parent's attribute list |
| Legacy.LegacyRegistry.DeclareAttribute | lib/datasource.rb:52-54 | `attribute` appends a plain attribute |
| Legacy.LegacyRegistry.DeclareAttributes | lib/datasource.rb:48-50 | `attributes` appends one plain attribute per name, in order |
| Legacy.LegacyRegistry.IncludesMany | lib/datasource.rb:56-58 | `includes_many` appends an included datasource with its foreign key |
| Legacy.LegacyRegistry.ComputedAttribute | lib/datasource.rb:60-67 | `computed_attribute` appends a computed attribute with the merged dependencies |
| Legacy.LegacyRegistry.QueryAttribute | lib/datasource.rb:69-76 | `query_attribute` appends a query attribute |
| Legacy.StoreDataSpec | lib/datasource.rb:128-138 | Hash arguments record each key's datasource data, last wins, other keys kept |
| Legacy.AttributeMapSpec | lib/datasource.rb:151-154 | the attribute map has every declared name, mapping it to the last attribute with that name |
| Legacy.PlanFromSpec | lib/datasource.rb:159-188 | the exposed computed attributes and included datasources are collected in order, each included one fetched with its group |
| Legacy.ChildrenOf | lib/datasource.rb:199 | a row's children are its group, or the empty list |
| Legacy.Prune | lib/datasource.rb:201-203 | `delete_if` keeps exactly the exposed keys |
| Legacy.WithComputedSpec | lib/datasource.rb:191-197 | every computed attribute is stored, other keys unchanged |
| Legacy.WithIncludedSpec | lib/datasource.rb:198-200 | every included datasource stores the row's children, other keys unchanged |
| Legacy.AssembleRowSpec | lib/datasource.rb:191-204 | an assembled row holds exactly the exposed keys among the row's, computed and included ones, with their values |
| Legacy.ResultsSpec | lib/datasource.rb:148-188 | `results` succeeds exactly when every exposed name is registered and every exposed included attribute has data |
| Legacy.ResultsRowsSpec | lib/datasource.rb:148-207 | every result row holds the children of each exposed included attribute under the row's id, a value for each exposed computed attribute, and every other exposed column as fetched |
| Legacy.LegacyDatasource.constructor | lib/datasource.rb:120-125 | a new instance exposes and selects nothing |
| Legacy.LegacyDatasource.CheckTableJoin | lib/datasource.rb:247-258 | passes exactly when a join names the attribute, else "does not join on" |
| Legacy.LegacyDatasource.AppendSelectValue | lib/datasource.rb:214-216 | a select value is pushed unless present |
| Legacy.LegacyDatasource.AppendSelectValues | lib/datasource.rb:230-233 | the values are appended in order, each unless present |
| Legacy.LegacyDatasource.CheckTableJoins | lib/datasource.rb:226-229 | every dependency table other than the model's is join-checked |
| Legacy.LegacyDatasource.AppendContribution | lib/datasource.rb:222-243 | one attribute's select values are appended, keeping the list duplicate-free with the old one as prefix |
| Legacy.LegacyDatasource.AppendRequiredSelectValues | lib/datasource.rb:218-245 | the id column and every exposed attribute's contribution are appended, failing on a missing join |
| Legacy.LegacyDatasource.StoreEntriesInPlace | lib/datasource.rb:131-133 | the datasource data gains each entry of a Hash argument, in order |
| Legacy.LegacyDatasource.RecordArgs | lib/datasource.rb:128-138 | the arguments' names, with Hash arguments' data recorded |
| Legacy.LegacyDatasource.Select | lib/datasource.rb:127-142 | the exposed names become `(old + names).uniq` and the select list grows by the required values |
| Legacy.LegacyDatasource.Results | lib/datasource.rb:148-207 | the result rows are the assembled fetched rows, one per fetched row, each holding only exposed keys |
| Serializer.DefaultValue | lib/datasource/serializer.rb:12-21 | a known type gets its default (`{}`, `[]`, the datasource, nil); any other raises "Unknown type" |
| Serializer.SetEntry | lib/datasource/serializer.rb:63 | `value[name] = part` sets that key and keeps the others |
| Serializer.NewCursorLands | lib/datasource/serializer.rb:32-54 | entering a part lands the cursor on a part of the new type with its default value, keeping the rest of the template |
| Serializer.NewCursorBranches | lib/datasource/serializer.rb:35-50 | a datasource cursor retries at its parent, an untyped one is replaced in place, an array gains an item, anything else raises "Invalid use" |
| Serializer.ArrayCursorAsWrittenFails | lib/datasource/serializer.rb:41-43 | as written, entering under an array raises NoMethodError for `push` |
| Serializer.ArrayCursorAppendsItem | lib/datasource/serializer.rb:41-43 | corrected, entering under an array appends one item and moves the cursor to it |
| Serializer.KeyEntrySpec | lib/datasource/serializer.rb:60-66 | `key` outside a hash raises; inside one it adds an untyped part under the name |
| Serializer.AddAttributeSpec | lib/datasource/serializer.rb:81-84 | `attribute` outside a datasource raises; inside one it appends the name to its select |
| Serializer.SerializerClass.Inherit | lib/datasource/serializer.rb:27-30 | a new serializer has no template, no cursor and no datasources |
| Serializer.SerializerClass.WithNewCursor | lib/datasource/serializer.rb:32-54 | the template becomes the entered one before the block runs, a failed entry raises before the block, and the template is never lost |
| Serializer.SerializerClass.Hash | lib/datasource/serializer.rb:56-58 | `hash` enters a hash part |
| Serializer.SerializerClass.Array | lib/datasource/serializer.rb:68-70 | `array` enters an array part |
| Serializer.SerializerClass.Key | lib/datasource/serializer.rb:60-66 | `key` adds the untyped entry and restores the cursor afterwards |
| Serializer.SerializerClass.Datasource | lib/datasource/serializer.rb:72-75 | `datasource` counts one more datasource and, on success, the cursor is a datasource part of that class |
| Serializer.SerializerClass.Attribute | lib/datasource/serializer.rb:81-84 | `attribute` appends the name to the current datasource's select |
| Serializer.SerializerClass.Attributes | lib/datasource/serializer.rb:77-79 | every name is appended to the current datasource's select, in order; it fails, changing nothing, exactly when the first `attribute` call would |
| Serializer.SerializerClass.Run | lib/datasource/serializer.rb:56-84 | running a block of DSL calls counts exactly its `datasource` calls and never loses the template |
| Serializer.DatasourceRoot | lib/datasource/serializer.rb:72-75 | a datasource at the root makes the template a datasource part, with the cursor on it |
| Serializer.CheckScopes | lib/datasource/serializer.rb:87-92 | a serializer instance accepts exactly as many scopes as datasources, else ArgumentError |
| Serializer.ParseConsumes | lib/datasource/serializer.rb:99-115 | rendering a part consumes one scope per datasource part in it |
| Serializer.ParseEntriesConsumes | lib/datasource/serializer.rb:102-107 | rendering a hash's entries consumes one scope per datasource in them |
| Serializer.ParseItemsConsumes | lib/datasource/serializer.rb:108-109 | rendering an array's items consumes one scope per datasource in them |
| Serializer.ParseShape | lib/datasource/serializer.rb:99-115 | a hash renders to a hash, an array to a list, a datasource to its results; an untyped part raises NameError |
| Serializer.ParseEntriesKeys | lib/datasource/serializer.rb:103-107 | a rendered hash has exactly the template's keys |
| Serializer.ParseItemsLength | lib/datasource/serializer.rb:109 | a rendered array has one value per item |
| Serializer.TwoDatasourcesTakeScopesInOrder | lib/datasource/serializer.rb:104-111 | two datasources under a hash receive the first and second scope in template order |
| Serializer.SerializerInstance.constructor | lib/datasource/serializer.rb:87-88 | an instance holds the class's template and its scopes |
| Serializer.SerializerInstance.AsJson | lib/datasource/serializer.rb:94-96 | no template renders nil; otherwise the template rendered, consuming the scopes |
| Serializer.New | lib/datasource/serializer.rb:87-92 | `new(*scopes)` succeeds exactly with the right number of scopes |
| CollectionContext.MapIds | lib/datasource/collection_context.rb:14 | `models.map(&primary_key)` succeeds exactly when every model has the reader, giving each model's id in order |
| CollectionContext.MapIdsFirstFailure | lib/datasource/collection_context.rb:14 | a failure is the error of the first model without the reader |
| CollectionContext.CollectionContext.constructor | lib/datasource/collection_context.rb:5-11 | the context keeps its arguments and takes the datasource's class |
| CollectionContext.CollectionContext.ModelIds | lib/datasource/collection_context.rb:13-15 | `model_ids` returns the mapped ids and memoises them, reusing a memoised list |
| CollectionContext.CollectionContext.Ids | lib/datasource/collection_context.rb:16 | `ids` behaves as `model_ids` |
| CollectionContext.AskTwice | lib/datasource/collection_context.rb:13-16 | asking twice gives the same answer, memoised after a success |

## Left out

- Ruby Hash insertion order: hashes are Dafny maps, so the order of keys in a hash value or a
  grouping is not modelled (Ruby Hash equality ignores it). Lists keep their order.
- `Kernel#Array` on a Hash (which gives its pairs) is modelled as a one-element list.
- Values.Index: only the one-argument `[]` with an Integer or String key is modelled. Range and
  two-argument forms, and Float or Regexp keys, are not modelled, because the model has no
  such values (any other key on a String, Symbol or Integer raises TypeError).
- Proc bodies, SQL and the database: a computed attribute's value block, a query attribute's
  SQL expression, `pluck_hash`, `to_query`/`to_sql`, `get_rows` and the Sequel literal
  wrapping are parameters or opaque values; fetched rows are given to `results`.
- `update_scope`: the scope is an opaque value, passed through unchanged.
- `Datasource.From` with associations: its recursion over `has_many` reflections, constant
  lookup and the SystemStackError rescue are not modelled; only the column filter is.
- Consumer adapters, `array_serializer`, configuration, generators and `fail_missing_attributes`
  (unreachable, because `select` raises at the first unknown name) are not part of this model.
- Rows and records mutated in place (`row.delete`, `row[...] =` in the legacy `results`, the
  foreign-key stripping of included rows) are modelled as new rows; only `loaded_values` of a
  model record is updated in place.
- Legacy.LegacyDatasource.Results: the datasource data of an included attribute is assumed to
  be a `{select, scope}` pair; any other value is not modelled.
- Legacy.LegacyDatasource.Select: a Hash argument contributes its keys; an Array argument
  flattened by `flat_map` is not modelled.
- The registry of a datasource instance is a snapshot of its class's registry at creation;
  declarations made on the class afterwards are not seen by existing instances.
- Loader names: Ruby keys the loader table by symbol while computed dependencies hold strings;
  the model uses strings throughout and does not model that mismatch. `_loader_depends` is
  modelled as the columns of the `loader` dependency entries.
- Base.Datasource.Select: the upper bound covers the exposed attribute names only; the association
  selections are shown to grow and to hold what was asked, with no statement that nothing else was
  added to them.
- Base.Datasource.RunLoader: a loader proc sees records as their attribute maps; methods of the
  model beyond attributes are not modelled.
- The `object` thunk of a computed attribute (the lazily built ORM object) is not modelled.
- Serializer: the `parent` link of a template part is replaced by a path from the root, and a
  cursor path that does not resolve (which cannot arise from the DSL) reports NoMethodError
  for `type`.
- Serializer.SerializerInstance.AsJson: on failure the scopes are left unchanged; Ruby would
  already have shifted the scopes of the datasources rendered before the failure.
- Serializer.ParsePart: the results of a datasource (`new(scope).select(...).results`) are an
  opaque function of the datasource class, the scope and the select list.
- CollectionContext: the scope and params are opaque values.
- SequelAdapter.EnsureTableJoin: models the corrected check of the sequel.rb:95 finding; the
  check as written never passes (`JoinCheck.EnsureSequelJoinAsWritten`).
- SequelAdapter.GetSelectValues: uses the corrected join check, so it compiles when every
  needed join exists; as written it raises whenever an exposed attribute needs a join.
- ActiveRecordAdapter.GetSelectValues: reads the registry as an ordered list of attribute
  entries, as the legacy class keeps it (lib/datasource.rb:44-58). On a `Base` subclass
  `_attributes` is a Hash (lib/datasource/base.rb:8,57), so `each` yields `[name, entry]`
  pairs and `att[:name]` (lib/datasource/adapters/active_record.rb:85-86) raises TypeError;
  the legacy class has no `attribute_exposed?`, which only `Base` defines
  (lib/datasource/base.rb:182). The model does not capture either mismatch.
- SequelAdapter.GetSelectValues: reads the registry as an ordered list of attribute entries in
  the same way (lib/datasource/adapters/sequel.rb:61-62), with the same mismatch left out.

## Findings

| source | as written | input that shows it | evidently intended | confidence | as-written member | corrected member |
|---|---|---|---|---|---|---|
| lib/datasource/adapters/sequel.rb:95 | `Hash(scope.opts[:join])` converts the join list, an Array, to a Hash: a non-empty list raises TypeError and an empty one finds nothing, so the check never passes | a dataset joined on `authors`, checked for an attribute named `authors` | search the join list itself (`Array(...)`) for an alias or table equal to the name | not executed | JoinCheck.SequelJoinAsWrittenRejectsJoinedScope | JoinCheck.EnsureSequelJoin |
| lib/datasource/base.rb:174 | `att[:klass].select_value` calls `select_value` on the class, but `query_attribute` defines it as an instance method, so exposing a query attribute raises NoMethodError | a datasource with one query attribute, exposed, then `get_select_values` | call it on an instance (`att[:klass].new.select_value`), as both adapters do | not executed | Base.QueryAttributeBreaksSelectValues | Base.BaseSelectListSpec |
| lib/datasource/serializer.rb:43 | `@cursor.parent.push(@cursor)` sends `push` to a TemplatePart struct, which has no such method, so nothing can be placed inside an `array` | `array { hash { } }` in a serializer class | push the new part onto the array part's value | not executed | Serializer.ArrayCursorAsWrittenFails | Serializer.ArrayCursorAppendsItem |
