/** `updateOne(Model, params, body)`: the full update. It checks that a
    record matches the resolved filter, validates the candidate
    `{ ...body, _id, ...paramsCopy }` on its own (the stored record's fields
    are not merged in), writes it by `_id`, and classifies whatever is
    thrown on the way. */
module UpdateOne {
  import opened Objects
  import opened Errors
  import opened Filters
  import opened Store

  /** `{ ...body, _id, ...paramsCopy }`: params win over `_id`, and `_id` over
      the body; no other field enters the candidate. */
  function UpdateData(body: Obj, params: Obj): (data: Obj)
    requires WellFormed(body) && WellFormed(params)
    ensures WellFormed(data)
    ensures forall k :: k != "id" && k in Keys(params) ==> Lookup(data, k) == Lookup(params, k)
    ensures "_id" !in Keys(params) ==> Lookup(data, "_id") == Some(IdParam(params))
    ensures forall k :: k != "_id" && (k == "id" || k !in Keys(params)) ==>
      Lookup(data, k) == Lookup(body, k)
    ensures forall k :: k in Keys(data) ==> k == "_id" || k in Keys(body) || (k != "id" && k in Keys(params))
  {
    var rest := RestParams(params);
    var withId := Put(body, "_id", IdParam(params));
    Spread(withId, rest)
  }

  /** The candidate of a full update omits whatever the body omits: a
      required path present only in the stored record still fails
      validation. */
  lemma UpdateIgnoresOriginal(body: Obj, params: Obj, required: seq<string>, p: string)
    requires WellFormed(body) && WellFormed(params)
    requires p in required && p != "_id" && p !in Keys(body) && (p == "id" || p !in Keys(params))
    ensures p in MissingRequired(UpdateData(body, params), required)
  {
    assert Lookup(UpdateData(body, params), p) == None;
  }

  /** The `try` block of `updateOne`: the first store call needs the
      connection, `findOne(filter)` must find a record, and the candidate is
      validated and written by `params.id`. */
  function UpdateAttempt(model: Collection, params: Obj, body: Obj): Attempt
    reads model
    requires WellFormed(params) && WellFormed(body)
  {
    var filter := ResolveFilter(params);
    if !model.connected then Threw(ThrownFault(NotConnected))
    else if FirstMatch(model.records, filter).None? then
      Threw(ThrownNotFound(NewNotFoundError(model.modelName, filter)))
    else ValidateAndWrite(model, UpdateData(body, params), IdParam(params))
  }

  /** What `updateOne` settles to: whatever the `try` block throws goes
      through the classifier and leaves the store as it was. */
  function UpdateResult(model: Collection, params: Obj, body: Obj): Outcome
    reads model
    requires WellFormed(params) && WellFormed(body)
  {
    match UpdateAttempt(model, params, body)
    case Threw(t) => Outcome(Err(Classify(t)), model.records)
    case Done(rs', doc) => Outcome(Ok(200, Item(doc)), rs')
  }

  /** A failed update writes nothing and every failure is classified; only
      a success answers 200. */
  lemma UpdateFailureWritesNothing(model: Collection, params: Obj, body: Obj)
    requires WellFormed(params) && WellFormed(body)
    ensures var o := UpdateResult(model, params, body);
      && (o.response.Err? ==> o.records == model.records && !o.response.error.Native?)
      && (o.response.Ok? ==> o.response.status == 200 && o.response.result.Item?)
  {
  }

  /** Disconnected, the first store call fails and the classifier reports it
      as an internal error. */
  lemma UpdateDisconnected(model: Collection, params: Obj, body: Obj)
    requires WellFormed(params) && WellFormed(body) && !model.connected
    ensures UpdateResult(model, params, body).response == Err(Internal(Describe(NotConnected)))
  {
  }

  /** No record matching the filter: the not-found error passes the
      classifier unchanged. */
  lemma UpdateNotFound(model: Collection, params: Obj, body: Obj)
    requires WellFormed(params) && WellFormed(body) && model.connected
    requires FirstMatch(model.records, ResolveFilter(params)).None?
    ensures UpdateResult(model, params, body).response
         == Err(NotFound(NewNotFoundError(model.modelName, ResolveFilter(params))))
  {
  }

  /** A candidate lacking a required path is rejected as a validation error
      before anything is written. */
  lemma UpdateInvalid(model: Collection, params: Obj, body: Obj)
    requires WellFormed(params) && WellFormed(body) && model.connected
    requires FirstMatch(model.records, ResolveFilter(params)).Some?
    requires MissingRequired(UpdateData(body, params), model.required) != []
    ensures var missing := MissingRequired(UpdateData(body, params), model.required);
      UpdateResult(model, params, body)
        == Outcome(Err(Validation(ValidationFault(model.modelName, missing).message)), model.records)
  {
  }

  /** A successful update found a record, validated the candidate, and is
      the store's write of it by `params.id`: the returned record carries
      that `_id` and every defined field of the candidate except the
      immutable `createdAt`, and is stored. */
  lemma UpdateSucceeds(model: Collection, params: Obj, body: Obj)
    requires model.Valid() && WellFormed(params) && WellFormed(body)
    requires UpdateResult(model, params, body).response.Ok?
    ensures model.connected && FirstMatch(model.records, ResolveFilter(params)).Some?
    ensures var o := UpdateResult(model, params, body);
      var data := UpdateData(body, params);
      && MissingRequired(data, model.required) == []
      && o.response.result.Item?
      && UpdateById(model.records, model.unique, IdParam(params), data) == Written(o.records, o.response.result.doc)
      && Get(o.response.result.doc, "_id") == IdParam(params)
      && (forall k :: k != "createdAt" && Get(data, k) != Undefined ==>
            Lookup(o.response.result.doc, k) == Lookup(data, k))
      && o.response.result.doc in o.records
  {
    WriteStoresData(model, UpdateData(body, params), IdParam(params));
  }

  /** A candidate that collides with another record on a unique path is
      refused by the write, and the catch block reports the duplicate key
      as a conflict; nothing is written. */
  lemma UpdateConflict(model: Collection, params: Obj, body: Obj)
    requires WellFormed(params) && WellFormed(body) && model.connected
    requires FirstMatch(model.records, ResolveFilter(params)).Some?
    requires MissingRequired(UpdateData(body, params), model.required) == []
    requires UpdateById(model.records, model.unique, IdParam(params), UpdateData(body, params)) == Rejected(DuplicateKey)
    ensures UpdateResult(model, params, body) == Outcome(Err(Conflict(DuplicateKey.message)), model.records)
    ensures DuplicateKey.message == "E11000 duplicate key error"
  {
  }

  /** An update succeeds exactly when the store is connected, a record
      matches the filter, the candidate validates and the write by
      `params.id` goes through. */
  lemma UpdateOkWhen(model: Collection, params: Obj, body: Obj)
    requires WellFormed(params) && WellFormed(body)
    ensures UpdateResult(model, params, body).response.Ok? <==>
      && model.connected
      && FirstMatch(model.records, ResolveFilter(params)).Some?
      && MissingRequired(UpdateData(body, params), model.required) == []
      && UpdateById(model.records, model.unique, IdParam(params), UpdateData(body, params)).Written?
  {
  }

  /** Whatever the outcome, the collection stays valid. */
  lemma UpdateKeepsValid(model: Collection, params: Obj, body: Obj)
    requires model.Valid() && WellFormed(params) && WellFormed(body)
    ensures ValidRecords(UpdateResult(model, params, body).records, model.unique)
  {
    var a := UpdateAttempt(model, params, body);
    if a.Done? {
      assert a == ValidateAndWrite(model, UpdateData(body, params), IdParam(params));
      WriteKeepsValid(model, UpdateData(body, params), IdParam(params));
      assert UpdateResult(model, params, body).records == a.records;
    }
  }

  /** `updateOne(Model, params, body)`: the store is written only when the
      update succeeds. */
  method UpdateOne(model: Collection, params: Obj, body: Obj) returns (r: Response)
    requires model.Valid() && WellFormed(params) && WellFormed(body)
    modifies model
    ensures r == old(UpdateResult(model, params, body)).response
    ensures model.records == old(UpdateResult(model, params, body)).records
    ensures model.Valid() && model.connected == old(model.connected)
  {
    var outcome := UpdateResult(model, params, body);
    UpdateKeepsValid(model, params, body);
    UpdateFailureWritesNothing(model, params, body);
    var records := outcome.records;
    r := outcome.response;
    if r.Ok? {
      model.records := records;
    }
  }
}
