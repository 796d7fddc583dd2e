/** `readOne(Model, params)`: resolve the filter, read the first match,
    and reject with `NotFoundError` when there is none. */
module ReadOne {
  import opened Objects
  import opened Errors
  import opened Filters
  import opened Store

  method ReadOne(model: Collection, params: Obj) returns (r: Response)
    requires WellFormed(params)
    ensures !model.connected ==> r == Err(Native(NotConnected))
    ensures model.connected ==>
      (r.Err? <==> forall i :: 0 <= i < |model.records| ==> !Matches(model.records[i], ResolveFilter(params)))
    ensures r.Err? && model.connected ==>
      r.error == NotFound(NewNotFoundError(model.modelName, ResolveFilter(params)))
    ensures r.Ok? ==> r.status == 200 && r.result.Item?
    ensures r.Ok? ==> r.result.doc in model.records && Matches(r.result.doc, ResolveFilter(params))
    ensures r.Ok? ==> r.result.doc == model.records[FirstMatch(model.records, ResolveFilter(params)).value]
  {
    var filter := ResolveFilter(params);
    if !model.connected {
      return Err(Native(NotConnected));
    }
    var found := FirstMatch(model.records, filter);
    if found.None? {
      return Err(NotFound(NewNotFoundError(model.modelName, filter)));
    }
    r := Ok(200, Item(model.records[found.value]));
  }
}
