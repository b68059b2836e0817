/** The collection context a consumer builds for one serialization: the scope, the models it
    loaded, the datasource and its class, and the memoised list of model ids. */
module CollectionContext {
  import opened Values

  /** What the context reads of a datasource class: its name and its primary key. */
  datatype DatasourceClassInfo = DatasourceClassInfo(name: string, primaryKey: string)

  /** A datasource instance, as far as the context looks at it: its class. */
  datatype DatasourceObject = DatasourceObject(klass: DatasourceClassInfo)

  /** Model `i` is the first whose primary-key reader fails, with error `e`. */
  ghost predicate FirstFailure(models: seq<Value>, key: string, i: int, e: Error) {
    0 <= i < |models| && Send(models[i], key) == Err(e) && forall j :: 0 <= j < i ==> Send(models[j], key).Ok?
  }

  /** `models.map(&primary_key)`: each model's primary-key reader, in order; the first model
      without that reader raises. */
  function MapIds(models: seq<Value>, key: string): (r: Result<seq<Value>>)
    ensures r.Ok? <==> forall i :: 0 <= i < |models| ==> Send(models[i], key).Ok?
    ensures r.Ok? ==> |r.value| == |models|
    ensures r.Ok? ==> forall i :: 0 <= i < |models| ==> r.value[i] == Send(models[i], key).value
  {
    if |models| == 0 then Ok([])
    else
      match Send(models[0], key)
      case Err(e) => Err(e)
      case Ok(id) =>
        var rest := MapIds(models[1..], key);
        if rest.Err? then Err(rest.error)
        else
          assert forall i :: 1 <= i < |models| ==> models[i] == models[1..][i - 1];
          Ok([id] + rest.value)
  }

  /** A failing map raises the error of the first model without the reader. */
  lemma {:induction false} MapIdsFirstFailure(models: seq<Value>, key: string)
    ensures MapIds(models, key).Err? ==> exists i :: FirstFailure(models, key, i, MapIds(models, key).error)
  {
    if |models| > 0 && Send(models[0], key).Ok? && MapIds(models, key).Err? {
      MapIdsFirstFailure(models[1..], key);
      var i :| FirstFailure(models[1..], key, i, MapIds(models, key).error);
      assert forall j :: 1 <= j < i + 1 ==> models[j] == models[1..][j - 1];
      assert FirstFailure(models, key, i + 1, MapIds(models, key).error);
    } else if |models| > 0 && Send(models[0], key).Err? {
      assert FirstFailure(models, key, 0, MapIds(models, key).error);
    }
  }

  class CollectionContext {
    const scope: Value
    const models: seq<Value>
    const datasource: DatasourceObject
    const datasourceClass: DatasourceClassInfo
    const params: Value
    /** `@model_ids`: None until the ids have been computed. */
    var modelIds: Option<seq<Value>>

    /** A memoised list is the list the computation gives. */
    ghost predicate Valid()
      reads this
    {
      modelIds.Some? ==> MapIds(models, datasourceClass.primaryKey) == Ok(modelIds.value)
    }

    /** `initialize(scope, collection, datasource, params)`: the class is the datasource's own. */
    constructor (scope: Value, collection: seq<Value>, datasource: DatasourceObject, params: Value)
      ensures Valid()
      ensures this.scope == scope && this.models == collection && this.datasource == datasource
      ensures this.datasourceClass == datasource.klass && this.params == params
      ensures modelIds == None
    {
      this.scope := scope;
      this.models := collection;
      this.datasource := datasource;
      this.datasourceClass := datasource.klass;
      this.params := params;
      modelIds := None;
    }

    /** `model_ids`: computed on the first successful call and then reused. */
    method ModelIds() returns (r: Result<seq<Value>>)
      requires Valid()
      modifies this`modelIds
      ensures Valid()
      ensures r == MapIds(models, datasourceClass.primaryKey)
      ensures old(modelIds).Some? ==> modelIds == old(modelIds)
      ensures old(modelIds).None? ==> modelIds == (if r.Ok? then Some(r.value) else None)
    {
      if modelIds.Some? {
        return Ok(modelIds.value);
      }
      r := MapIds(models, datasourceClass.primaryKey);
      if r.Ok? {
        modelIds := Some(r.value);
      }
    }

    /** `ids`, the alias of `model_ids`. */
    method Ids() returns (r: Result<seq<Value>>)
      requires Valid()
      modifies this`modelIds
      ensures Valid()
      ensures r == MapIds(models, datasourceClass.primaryKey)
      ensures old(modelIds).Some? ==> modelIds == old(modelIds)
      ensures old(modelIds).None? ==> modelIds == (if r.Ok? then Some(r.value) else None)
    {
      r := ModelIds();
    }
  }

  /** Asking twice, under either name, gives the same ids, and the second call finds them
      memoised. */
  method AskTwice(ctx: CollectionContext) returns (first: Result<seq<Value>>, second: Result<seq<Value>>)
    requires ctx.Valid()
    modifies ctx
    ensures first == second
    ensures first.Ok? ==> ctx.modelIds == Some(first.value) && |first.value| == |ctx.models|
  {
    first := ctx.ModelIds();
    second := ctx.Ids();
  }
}
