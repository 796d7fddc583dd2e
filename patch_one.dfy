/** `patchOne(Model, params, body)`: the partial update. It reads the
    record matching the resolved filter, merges
    `{ ...original, ...body, _id, ...paramsCopy }`, validates that merge,
    and writes it by `_id`. Nothing is classified: whatever is thrown
    reaches the caller as it is. */
module PatchOne {
  import opened Objects
  import opened Errors
  import opened Filters
  import opened Store

  /** `{ ...original, ...body, _id, ...paramsCopy }`: params win over `_id`,
      `_id` over the body, and the body over the stored record. */
  function PatchData(original: Obj, body: Obj, params: Obj): (data: Obj)
    requires WellFormed(original) && WellFormed(body) && WellFormed(params)
    ensures WellFormed(data)
    ensures forall k :: k != "id" && k in Keys(params) ==> Lookup(data, k) == Lookup(params, k)
    ensures "_id" !in Keys(params) ==> Lookup(data, "_id") == Some(IdParam(params))
    ensures forall k :: k != "_id" && (k == "id" || k !in Keys(params)) && k in Keys(body) ==>
      Lookup(data, k) == Lookup(body, k)
    ensures forall k :: k != "_id" && (k == "id" || k !in Keys(params)) && k !in Keys(body) ==>
      Lookup(data, k) == Lookup(original, k)
  {
    var merged := Spread(original, body);
    var withId := Put(merged, "_id", IdParam(params));
    Spread(withId, RestParams(params))
  }

  /** A field other than `_id` and `createdAt` that neither the body nor
      the params copy names. */
  predicate Unnamed(k: string, body: Obj, params: Obj)
  {
    k != "_id" && k != "createdAt" && k !in Keys(body) && (k == "id" || k !in Keys(params))
  }

  /** A field that neither the body nor params name keeps its stored value
      in the merge. */
  lemma PatchKeepsUnnamed(original: Obj, body: Obj, params: Obj, k: string)
    requires WellFormed(original) && WellFormed(body) && WellFormed(params)
    requires k != "_id" && k !in Keys(body) && (k == "id" || k !in Keys(params))
    ensures Get(PatchData(original, body, params), k) == Get(original, k)
  {
  }

  /** A body that sets a required path to `null` makes the merge invalid,
      unless params supply that path. */
  lemma PatchNullRequired(original: Obj, body: Obj, params: Obj, required: seq<string>, p: string)
    requires WellFormed(original) && WellFormed(body) && WellFormed(params)
    requires p in required && p != "_id" && (p == "id" || p !in Keys(params))
    requires Lookup(body, p) == Some(Null)
    ensures p in MissingRequired(PatchData(original, body, params), required)
  {
    assert Lookup(PatchData(original, body, params), p) == Some(Null);
  }

  /** The body of `patchOne` up to its return: the first store call needs
      the connection, `findOne(filter)` must find a record, and the merge
      over that record is validated and written by `params.id`. */
  function PatchAttempt(model: Collection, params: Obj, body: Obj): Attempt
    reads model
    requires WellFormed(params) && WellFormed(body) && model.Valid()
  {
    var filter := ResolveFilter(params);
    if !model.connected then Threw(ThrownFault(NotConnected))
    else
      match FirstMatch(model.records, filter)
      case None => Threw(ThrownNotFound(NewNotFoundError(model.modelName, filter)))
      case Some(i) => ValidateAndWrite(model, PatchData(model.records[i], body, params), IdParam(params))
  }

  /** What `patchOne` settles to: whatever is thrown reaches the caller
      unclassified and leaves the store as it was. */
  function PatchResult(model: Collection, params: Obj, body: Obj): Outcome
    reads model
    requires WellFormed(params) && WellFormed(body) && model.Valid()
  {
    match PatchAttempt(model, params, body)
    case Threw(t) => Outcome(Err(Unclassified(t)), model.records)
    case Done(rs', doc) => Outcome(Ok(200, Item(doc)), rs')
  }

  /** The record a patch merges over: the first match of the filter. */
  function Original(model: Collection, params: Obj): Obj
    reads model
    requires WellFormed(params) && FirstMatch(model.records, ResolveFilter(params)).Some?
  {
    model.records[FirstMatch(model.records, ResolveFilter(params)).value]
  }

  /** A failed patch writes nothing, and only a success answers 200. */
  lemma PatchFailureWritesNothing(model: Collection, params: Obj, body: Obj)
    requires WellFormed(params) && WellFormed(body) && model.Valid()
    ensures var o := PatchResult(model, params, body);
      && (o.response.Err? ==> o.records == model.records)
      && (o.response.Ok? ==> o.response.status == 200 && o.response.result.Item?)
  {
  }

  /** Disconnected, the first store call's fault reaches the caller. */
  lemma PatchDisconnected(model: Collection, params: Obj, body: Obj)
    requires WellFormed(params) && WellFormed(body) && model.Valid() && !model.connected
    ensures PatchResult(model, params, body).response == Err(Native(NotConnected))
  {
  }

  /** No record matching the filter: `NotFoundError` on that filter, whose
      keys are `_id` first and then the other params in order. */
  lemma PatchNotFound(model: Collection, params: Obj, body: Obj)
    requires WellFormed(params) && WellFormed(body) && model.Valid() && model.connected
    requires FirstMatch(model.records, ResolveFilter(params)).None?
    ensures PatchResult(model, params, body).response
         == Err(NotFound(NewNotFoundError(model.modelName, ResolveFilter(params))))
    ensures Keys(ResolveFilter(params)) == ["_id"] + Without(Without(Keys(params), ["id"]), ["_id"])
  {
    ResolveFilterKeys(params);
  }

  /** An invalid merge is rejected with Mongoose's `ValidationError` before
      anything is written. */
  lemma PatchInvalid(model: Collection, params: Obj, body: Obj)
    requires WellFormed(params) && WellFormed(body) && model.Valid() && model.connected
    requires FirstMatch(model.records, ResolveFilter(params)).Some?
    requires MissingRequired(PatchData(Original(model, params), body, params), model.required) != []
    ensures var missing := MissingRequired(PatchData(Original(model, params), body, params), model.required);
      PatchResult(model, params, body) == Outcome(Err(Native(ValidationFault(model.modelName, missing))), model.records)
  {
  }

  /** A successful patch found a record, validated the merge over it, and
      is the store's write of that merge by `params.id`; the returned record
      has that `_id`, the merge's defined values, the original's value for
      every field neither the body nor params name, and is stored. */
  lemma PatchSucceeds(model: Collection, params: Obj, body: Obj)
    requires WellFormed(params) && WellFormed(body) && model.Valid()
    requires PatchResult(model, params, body).response.Ok?
    ensures model.connected && FirstMatch(model.records, ResolveFilter(params)).Some?
    ensures var o := PatchResult(model, params, body);
      var data := PatchData(Original(model, params), body, params);
      && MissingRequired(data, model.required) == []
      && o.response.result.Item?
      && UpdateById(model.records, model.unique, IdParam(params), data) == Written(o.records, o.response.result.doc)
      && Get(o.response.result.doc, "_id") == IdParam(params)
      && (forall k :: k != "createdAt" && Get(data, k) != Undefined ==>
            Lookup(o.response.result.doc, k) == Lookup(data, k))
      && (forall k :: Unnamed(k, body, params) && Get(Original(model, params), k) != Undefined ==>
            Lookup(o.response.result.doc, k) == Lookup(Original(model, params), k))
      && o.response.result.doc in o.records
  {
    var data := PatchData(Original(model, params), body, params);
    assert PatchAttempt(model, params, body) == ValidateAndWrite(model, data, IdParam(params));
    WriteStoresData(model, data, IdParam(params));
  }

  /** A merge that collides with another record on a unique path is
      refused by the write; with no catch block, the duplicate-key fault
      reaches the caller as it is, and nothing is written. */
  lemma PatchDuplicate(model: Collection, params: Obj, body: Obj)
    requires WellFormed(params) && WellFormed(body) && model.Valid() && model.connected
    requires FirstMatch(model.records, ResolveFilter(params)).Some?
    requires MissingRequired(PatchData(Original(model, params), body, params), model.required) == []
    requires UpdateById(model.records, model.unique, IdParam(params),
                        PatchData(Original(model, params), body, params)) == Rejected(DuplicateKey)
    ensures PatchResult(model, params, body) == Outcome(Err(Native(DuplicateKey)), model.records)
  {
    var data := PatchData(Original(model, params), body, params);
    assert PatchAttempt(model, params, body) == ValidateAndWrite(model, data, IdParam(params));
  }

  /** A patch succeeds exactly when the store is connected, a record
      matches the filter, the merge over it validates and the write by
      `params.id` goes through. */
  lemma PatchOkWhen(model: Collection, params: Obj, body: Obj)
    requires WellFormed(params) && WellFormed(body) && model.Valid()
    ensures PatchResult(model, params, body).response.Ok? <==>
      && model.connected
      && FirstMatch(model.records, ResolveFilter(params)).Some?
      && MissingRequired(PatchData(Original(model, params), body, params), model.required) == []
      && UpdateById(model.records, model.unique, IdParam(params),
                    PatchData(Original(model, params), body, params)).Written?
  {
  }

  /** Whatever the outcome, the collection stays valid. */
  lemma PatchKeepsValid(model: Collection, params: Obj, body: Obj)
    requires model.Valid() && WellFormed(params) && WellFormed(body)
    ensures ValidRecords(PatchResult(model, params, body).records, model.unique)
  {
    var a := PatchAttempt(model, params, body);
    if a.Done? {
      var data := PatchData(Original(model, params), body, params);
      assert a == ValidateAndWrite(model, data, IdParam(params));
      WriteKeepsValid(model, data, IdParam(params));
      assert PatchResult(model, params, body).records == a.records;
    }
  }

  /** `patchOne(Model, params, body)`: the store is written only when the
      patch succeeds. */
  method PatchOne(model: Collection, params: Obj, body: Obj) returns (r: Response)
    requires model.Valid() && WellFormed(params) && WellFormed(body)
    modifies model
    ensures r == old(PatchResult(model, params, body)).response
    ensures model.records == old(PatchResult(model, params, body)).records
    ensures model.Valid() && model.connected == old(model.connected)
  {
    var outcome := PatchResult(model, params, body);
    PatchKeepsValid(model, params, body);
    PatchFailureWritesNothing(model, params, body);
    var records := outcome.records;
    r := outcome.response;
    if r.Ok? {
      model.records := records;
    }
  }
}
