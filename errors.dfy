/** What the operations throw: the facade's own `NotFoundError`
    (src/errors/NotFoundError.js), the native faults raised by the store,
    and the classified errors that `updateOne` turns those faults into. */
module Errors {
  import opened Objects
  import opened Json

  /** `new NotFoundError(Model, filter)`: an `Error` with a fixed message
      format, `status` 404 and `name` `'NOT_FOUND'`. */
  datatype NotFoundError = NotFoundError(message: string, status: int, name: string)

  function NotFoundMessage(modelName: string, filter: Obj): string
  {
    modelName + " with " + ObjJson(filter) + " is not found."
  }

  function NewNotFoundError(modelName: string, filter: Obj): (e: NotFoundError)
    ensures e.status == 404 && e.name == "NOT_FOUND"
    ensures e.message == NotFoundMessage(modelName, filter)
  {
    NotFoundError(NotFoundMessage(modelName, filter), 404, "NOT_FOUND")
  }

  predicate StartsWith(s: string, p: string)
  {
    |p| <= |s| && s[..|p|] == p
  }

  predicate EndsWith(s: string, p: string)
  {
    |p| <= |s| && s[|s| - |p|..] == p
  }

  lemma StartsWithConcat(a: string, b: string, c: string, p: string)
    requires StartsWith(b, p)
    ensures StartsWith(a + b + c, a + p)
  {
    assert (a + b + c)[..|a| + |p|] == a + b[..|p|];
  }

  lemma EndsWithBrace(a: string, b: string, c: string)
    requires |b| > 0 && b[|b| - 1] == '}'
    ensures EndsWith(a + b + c, "}" + c)
  {
    var s := a + b + c;
    assert s[|s| - |"}" + c|..] == b[|b| - 1..] + c;
  }

  /** The message names the model, then prints the filter in braces, then
      ends with " is not found."; the filter's first defined entry, such as
      the `_id` a resolved filter starts with, is printed first. */
  lemma NotFoundMessageShape(modelName: string, filter: Obj, k: string, v: Value, j: string)
    requires |filter| > 0 && filter[0] == (k, v) && ValueJson(v) == Some(j)
    ensures StartsWith(NewNotFoundError(modelName, filter).message,
                       modelName + " with " + ("{" + Quote(k) + ":" + j))
    ensures EndsWith(NewNotFoundError(modelName, filter).message, "} is not found.")
  {
    var js := ObjJson(filter);
    var p := "{" + Quote(k) + ":" + j;
    ObjJsonFirst(filter, k, v, j);
    assert StartsWith(js, p);
    StartsWithConcat(modelName + " with ", js, " is not found.", p);
    EndsWithBrace(modelName + " with ", js, " is not found.");
    assert "}" + " is not found." == "} is not found.";
  }

  /** The message of a not-found on the filter `{_id, refId}` of two
      ObjectIds, e.g. `Test with {"_id":"<hex>","refId":"<hex>"} is not found.` */
  lemma NotFoundMessageTwoIds(modelName: string, id: string, ref: string)
    requires Plain(id) && Plain(ref)
    ensures NewNotFoundError(modelName, [("_id", ObjectId(id)), ("refId", ObjectId(ref))]).message
         == modelName + " with " + ("{" + (PlainMember("_id", id) + "," + PlainMember("refId", ref)) + "}") + " is not found."
  {
    TwoIdsJson(id, ref);
  }

  /** A native error thrown by the store or the schema: its `name`, its
      `message` and its optional numeric `code`. */
  datatype Fault = Fault(name: string, message: string, code: Option<int>)

  /** What a `catch` block receives. */
  datatype Thrown = ThrownNotFound(notFound: NotFoundError) | ThrownFault(fault: Fault)

  /** What an operation rejects with: the facade's `NotFoundError`, one of
      the three classified errors of `updateOne`, or a native fault that the
      operation lets through unclassified. */
  datatype Error =
    | NotFound(notFound: NotFoundError)
    | Conflict(message: string)
    | Validation(message: string)
    | Internal(message: string)
    | Native(fault: Fault)

  const DuplicateKeyCode := 11000

  /** How an error prints: `name: message`. */
  function Describe(f: Fault): string
  {
    f.name + ": " + f.message
  }

  /** An error thrown as it is, as the operations without a classifier do. */
  function Unclassified(t: Thrown): (e: Error)
    ensures t.ThrownNotFound? <==> e.NotFound?
    ensures t.ThrownNotFound? ==> e == NotFound(t.notFound)
    ensures t.ThrownFault? ==> e == Native(t.fault)
  {
    match t
    case ThrownNotFound(nf) => NotFound(nf)
    case ThrownFault(f) => Native(f)
  }

  /** The catch block of `updateOne`: a not-found passes through unchanged,
      then a duplicate key is a conflict, then a schema or cast failure is a
      validation error, and anything else is internal. */
  function Classify(t: Thrown): (e: Error)
    ensures !e.Native?
    ensures e.NotFound? <==> t.ThrownNotFound?
    ensures t.ThrownNotFound? ==> e == NotFound(t.notFound)
    ensures e.Conflict? <==> t.ThrownFault? && t.fault.code == Some(DuplicateKeyCode)
    ensures e.Validation? <==>
      t.ThrownFault? && t.fault.code != Some(DuplicateKeyCode) &&
      (t.fault.name == "ValidationError" || t.fault.name == "CastError")
    ensures e.Conflict? || e.Validation? ==> e.message == t.fault.message
    ensures e.Internal? ==> e.message == Describe(t.fault)
  {
    match t
    case ThrownNotFound(nf) => NotFound(nf)
    case ThrownFault(f) =>
      if f.code == Some(DuplicateKeyCode) then Conflict(f.message)
      else if f.name == "ValidationError" || f.name == "CastError" then Validation(f.message)
      else Internal(Describe(f))
  }

  /** The fault every store call raises while the client is disconnected. */
  const NotConnected := Fault("MongoNotConnectedError",
                              "MongoClient must be connected to perform this operation", None)
}
