/** `deleteOne(Model, params)`: resolve the filter, reject with
    `NotFoundError` when no record matches, otherwise remove the first match
    (`findOneAndRemove(filter)`) and return what it held. */
module DeleteOne {
  import opened Objects
  import opened Errors
  import opened Filters
  import opened Store

  /** Once a record is removed from a valid collection, a lookup by its
      `_id` finds nothing, and the collection stays valid. */
  lemma GoneAfterRemoval(rs: seq<Obj>, unique: set<string>, i: nat)
    requires ValidRecords(rs, unique) && i < |rs|
    ensures FirstMatch(RemoveAt(rs, i), IdFilter(Get(rs[i], "_id"))).None?
    ensures ValidRecords(RemoveAt(rs, i), unique)
  {
    var id := Get(rs[i], "_id");
    var r := RemoveAt(rs, i);
    RemoveAtValid(rs, i, unique);
    forall j | 0 <= j < |r| ensures !Matches(r[j], IdFilter(id))
    {
      assert r[j] in r;
      assert IdFilter(id)[0] == ("_id", id);
      assert Stored(rs[i]);
    }
  }

  method DeleteOne(model: Collection, params: Obj) returns (r: Response)
    requires model.Valid() && WellFormed(params)
    modifies model
    ensures model.Valid() && model.connected == old(model.connected)
    // the first store call needs the connection
    ensures !model.connected ==> r == Err(Native(NotConnected)) && model.records == old(model.records)
    // not found: rejected, nothing removed
    ensures model.connected && FirstMatch(old(model.records), ResolveFilter(params)).None? ==>
      r == Err(NotFound(NewNotFoundError(model.modelName, ResolveFilter(params)))) &&
      model.records == old(model.records)
    // found: the first match is removed and returned as it was
    ensures r.Ok? <==> model.connected && FirstMatch(old(model.records), ResolveFilter(params)).Some?
    ensures r.Ok? ==>
      var i := FirstMatch(old(model.records), ResolveFilter(params)).value;
      && r == Ok(200, Item(old(model.records)[i]))
      && model.records == RemoveAt(old(model.records), i)
  {
    var paramsFilter := ResolveFilter(params);
    if !model.connected {
      return Err(Native(NotConnected));
    }
    var found := FirstMatch(model.records, paramsFilter);
    if found.None? {
      return Err(NotFound(NewNotFoundError(model.modelName, paramsFilter)));
    }
    var i := found.value;
    var removed := model.records[i];
    RemoveAtValid(model.records, i, model.unique);
    model.records := RemoveAt(model.records, i);
    r := Ok(200, Item(removed));
  }
}
