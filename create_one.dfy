/** `createOne(Model, params, body)`: build the candidate
    `{ ...body, ...params }`, save it as a new record, and answer 201 with
    the stored record. */
module CreateOne {
  import opened Objects
  import opened Errors
  import opened Store

  /** `{ ...body, ...params }`: params win on a shared key, and nothing else
      enters the candidate. */
  function CreateData(body: Obj, params: Obj): (data: Obj)
    requires WellFormed(body) && WellFormed(params)
    ensures WellFormed(data)
    ensures forall k :: Lookup(data, k) == if k in Keys(params) then Lookup(params, k) else Lookup(body, k)
  {
    Spread(body, params)
  }

  /** Absent (or `null`) params contribute nothing: the candidate is the
      body. */
  lemma CreateWithoutParams(body: Obj)
    requires WellFormed(body)
    ensures CreateData(body, []) == body
  {
  }

  /** An absent body contributes nothing: the candidate is a copy of the
      params, entry for entry. */
  lemma CreateWithoutBody(params: Obj)
    requires WellFormed(params)
    ensures CreateData([], params) == params
  {
    SpreadFresh([], params);
  }

  /** The record `new Model({ ...body, ...params })` saves: `_id` and
      `createdAt` are the store's, and every other defined field comes from
      params when they name it and from the body otherwise. */
  function NewRecord(body: Obj, params: Obj, freshId: Value, now: int): (doc: Obj)
    requires WellFormed(body) && WellFormed(params) && Present(freshId)
    ensures Stored(doc)
  {
    Stamp(CreateData(body, params), freshId, now)
  }

  /** The fields of the new record: params over body, undefined values
      dropped, and `_id` taken from the candidate when present. */
  lemma NewRecordFields(body: Obj, params: Obj, freshId: Value, now: int)
    requires WellFormed(body) && WellFormed(params) && Present(freshId)
    ensures var doc := NewRecord(body, params, freshId, now);
      && Get(doc, "createdAt") == Date(now)
      && (forall k :: k != "_id" && k != "createdAt" && k in Keys(params) && Get(params, k) != Undefined ==>
            Lookup(doc, k) == Lookup(params, k))
      && (forall k :: k != "_id" && k != "createdAt" && k !in Keys(params) && Get(body, k) != Undefined ==>
            Lookup(doc, k) == Lookup(body, k))
      && (forall k :: k != "_id" && k != "createdAt" && Get(params, k) == Undefined && Get(body, k) == Undefined ==>
            Lookup(doc, k) == None)
  {
  }

  /** With neither params nor body, every required path other than the
      store's own is missing, so the save is rejected. */
  lemma CreateNothingInvalid(required: seq<string>, freshId: Value, now: int, p: string)
    requires Present(freshId) && p in required && p != "_id" && p != "createdAt"
    ensures p in MissingRequired(NewRecord([], [], freshId, now), required)
  {
    assert Lookup(NewRecord([], [], freshId, now), p) == None;
  }

  /** What `createOne` settles to: `save` validates the new record, needs
      the connection, and rejects a record that collides with a stored one;
      otherwise the record is appended and returned with status 201. */
  function CreateResult(model: Collection, params: Obj, body: Obj, freshId: Value, now: int): Outcome
    reads model
    requires WellFormed(params) && WellFormed(body) && Present(freshId)
  {
    var doc := NewRecord(body, params, freshId, now);
    var missing := MissingRequired(doc, model.required);
    if missing != [] then Outcome(Err(Native(ValidationFault(model.modelName, missing))), model.records)
    else if !model.connected then Outcome(Err(Native(NotConnected)), model.records)
    else if Clash(model.records, doc, -1, model.unique) then Outcome(Err(Native(DuplicateKey)), model.records)
    else Outcome(Ok(201, Item(doc)), model.records + [doc])
  }

  /** A failed create writes nothing, and a success answers 201 with the
      new record. */
  lemma CreateFailureWritesNothing(model: Collection, params: Obj, body: Obj, freshId: Value, now: int)
    requires WellFormed(params) && WellFormed(body) && Present(freshId)
    ensures var o := CreateResult(model, params, body, freshId, now);
      && (o.response.Err? ==> o.records == model.records)
      && (o.response.Ok? ==> o.response == Ok(201, Item(NewRecord(body, params, freshId, now))))
  {
  }

  /** A new record lacking a required path is rejected with Mongoose's
      `ValidationError`, whatever the connection. */
  lemma CreateInvalid(model: Collection, params: Obj, body: Obj, freshId: Value, now: int)
    requires WellFormed(params) && WellFormed(body) && Present(freshId)
    requires MissingRequired(NewRecord(body, params, freshId, now), model.required) != []
    ensures var missing := MissingRequired(NewRecord(body, params, freshId, now), model.required);
      CreateResult(model, params, body, freshId, now).response == Err(Native(ValidationFault(model.modelName, missing)))
  {
  }

  /** A valid record cannot be saved without the connection. */
  lemma CreateDisconnected(model: Collection, params: Obj, body: Obj, freshId: Value, now: int)
    requires WellFormed(params) && WellFormed(body) && Present(freshId) && !model.connected
    requires MissingRequired(NewRecord(body, params, freshId, now), model.required) == []
    ensures CreateResult(model, params, body, freshId, now).response == Err(Native(NotConnected))
  {
  }

  /** A valid record that collides with a stored one is the store's
      duplicate-key error. */
  lemma CreateDuplicate(model: Collection, params: Obj, body: Obj, freshId: Value, now: int)
    requires WellFormed(params) && WellFormed(body) && Present(freshId) && model.connected
    requires MissingRequired(NewRecord(body, params, freshId, now), model.required) == []
    requires Clash(model.records, NewRecord(body, params, freshId, now), -1, model.unique)
    ensures CreateResult(model, params, body, freshId, now).response == Err(Native(DuplicateKey))
  {
  }

  /** A create succeeds exactly when the record is valid, the store is
      connected and nothing collides; then the record is appended, the
      collection stays valid, and a lookup by the returned `_id` finds it. */
  lemma CreateSucceeds(model: Collection, params: Obj, body: Obj, freshId: Value, now: int)
    requires model.Valid() && WellFormed(params) && WellFormed(body) && Present(freshId)
    ensures var o := CreateResult(model, params, body, freshId, now);
      var doc := NewRecord(body, params, freshId, now);
      o.response.Ok? <==>
        MissingRequired(doc, model.required) == [] && model.connected && !Clash(model.records, doc, -1, model.unique)
    ensures var o := CreateResult(model, params, body, freshId, now);
      o.response.Ok? ==>
        && o.records == model.records + [o.response.result.doc]
        && FirstMatch(o.records, IdFilter(Get(o.response.result.doc, "_id"))) == Some(|model.records|)
  {
    var doc := NewRecord(body, params, freshId, now);
    if CreateResult(model, params, body, freshId, now).response.Ok? {
      AppendValid(model.records, doc, model.unique);
    }
  }

  /** Whatever the outcome, the collection stays valid. */
  lemma CreateKeepsValid(model: Collection, params: Obj, body: Obj, freshId: Value, now: int)
    requires model.Valid() && WellFormed(params) && WellFormed(body) && Present(freshId)
    ensures ValidRecords(CreateResult(model, params, body, freshId, now).records, model.unique)
  {
    var doc := NewRecord(body, params, freshId, now);
    if CreateResult(model, params, body, freshId, now).response.Ok? {
      AppendValid(model.records, doc, model.unique);
    }
  }

  /** `createOne(Model, params, body)`: the store is written only when the
      save succeeds. The generated `_id` and the clock reading are
      parameters. */
  method CreateOne(model: Collection, params: Obj, body: Obj, freshId: Value, now: int) returns (r: Response)
    requires model.Valid() && WellFormed(params) && WellFormed(body) && Present(freshId)
    modifies model
    ensures r == old(CreateResult(model, params, body, freshId, now)).response
    ensures model.records == old(CreateResult(model, params, body, freshId, now)).records
    ensures model.Valid() && model.connected == old(model.connected)
  {
    var outcome := CreateResult(model, params, body, freshId, now);
    CreateKeepsValid(model, params, body, freshId, now);
    CreateFailureWritesNothing(model, params, body, freshId, now);
    var records := outcome.records;
    r := outcome.response;
    if r.Ok? {
      model.records := records;
    }
  }
}
