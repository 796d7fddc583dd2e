/** The abstract in-memory collection the operations run against (the
    `Model` argument): an ordered sequence of stored records, a schema that
    names the required paths and the uniquely indexed paths, and whether the
    client is connected. The functions here are the store's own semantics
    (find, findOne, count, save, findByIdAndUpdate, findOneAndRemove,
    deleteMany) on that sequence; the facade's decisions live in the
    operation modules. */
module Store {
  import opened Objects
  import opened Json
  import opened Errors
  import opened Filters

  /** The payload of a success envelope `{ status, result }`. */
  datatype Payload =
    | Item(doc: Obj)
    | Listing(items: seq<Obj>, count: nat)
    | Summary(acknowledged: bool, deletedCount: nat)

  /** What an operation resolves to, `{ status, result }`, or the error it
      rejects with. */
  datatype Response = Ok(status: int, result: Payload) | Err(error: Error)

  /** What a writing operation settles to: its response and the records the
      collection holds afterwards. */
  datatype Outcome = Outcome(response: Response, records: seq<Obj>)

  /** A stored record: well formed, with a present `_id` and a `createdAt`
      date. */
  predicate Stored(rec: Obj)
  {
    && WellFormed(rec)
    && Present(Get(rec, "_id"))
    && Get(rec, "createdAt").Date?
  }

  /** The key a unique index stores for a field value: a missing field is
      indexed as `null`. */
  function IndexKey(v: Value): (r: Value)
    ensures r != Undefined
    ensures v != Undefined ==> r == v
  {
    if v == Undefined then Null else v
  }

  /** Two records that may not both be stored: the same `_id`, or the same
      index key on a uniquely indexed path, where missing and `null` are
      the same key. */
  predicate Collide(a: Obj, b: Obj, unique: set<string>)
  {
    || Get(a, "_id") == Get(b, "_id")
    || exists k :: k in unique && IndexKey(Get(a, k)) == IndexKey(Get(b, k))
  }

  /** Whether `doc` collides with a record of `rs` other than the one at
      index `except` (the record being replaced, or -1 for an insert). */
  predicate Clash(rs: seq<Obj>, doc: Obj, except: int, unique: set<string>)
  {
    exists j :: 0 <= j < |rs| && j != except && Collide(rs[j], doc, unique)
  }

  /** The collection's invariant: every record is stored properly and no two
      records collide, so in particular `_id`s are distinct. */
  predicate ValidRecords(rs: seq<Obj>, unique: set<string>)
  {
    && (forall i :: 0 <= i < |rs| ==> Stored(rs[i]))
    && (forall i, j :: 0 <= i < |rs| && 0 <= j < |rs| && i != j ==> !Collide(rs[i], rs[j], unique))
  }

  class Collection {
    /** `Model.modelName`, quoted in not-found and validation messages. */
    const modelName: string
    /** The schema paths with `required: true`, in schema order. */
    const required: seq<string>
    /** The schema paths with a unique index, besides `_id`. */
    const unique: set<string>
    var records: seq<Obj>
    var connected: bool

    ghost predicate Valid()
      reads this
    {
      ValidRecords(records, unique)
    }

    constructor (modelName: string, required: seq<string>, unique: set<string>)
      ensures Valid()
      ensures this.modelName == modelName && this.required == required && this.unique == unique
      ensures records == [] && connected
    {
      this.modelName := modelName;
      this.required := required;
      this.unique := unique;
      records := [];
      connected := true;
    }
  }

  /** `Model.findOne(filter)`: the index of the first record in store order
      that matches. */
  function FirstMatch(rs: seq<Obj>, filter: Obj): (r: Option<nat>)
    ensures r.Some? ==> r.value < |rs| && Matches(rs[r.value], filter)
    ensures r.Some? ==> forall j :: 0 <= j < r.value ==> !Matches(rs[j], filter)
    ensures r.None? ==> forall j :: 0 <= j < |rs| ==> !Matches(rs[j], filter)
  {
    if rs == [] then None
    else if Matches(rs[0], filter) then Some(0)
    else
      match FirstMatch(rs[1..], filter)
      case None => None
      case Some(i) => Some(i + 1)
  }

  /** `Model.find(filter)` before sorting: the matching records in store
      order. */
  function Matching(rs: seq<Obj>, filter: Obj): (r: seq<Obj>)
    ensures forall x :: x in r ==> x in rs && Matches(x, filter)
    ensures forall x :: x in rs && Matches(x, filter) ==> x in r
    ensures |r| <= |rs|
  {
    if rs == [] then []
    else (if Matches(rs[0], filter) then [rs[0]] else []) + Matching(rs[1..], filter)
  }

  /** The records `Model.deleteMany(filter)` leaves behind, in store order. */
  function Remaining(rs: seq<Obj>, filter: Obj): (r: seq<Obj>)
    ensures forall x :: x in r ==> x in rs && !Matches(x, filter)
    ensures forall x :: x in rs && !Matches(x, filter) ==> x in r
  {
    if rs == [] then []
    else (if Matches(rs[0], filter) then [] else [rs[0]]) + Remaining(rs[1..], filter)
  }

  /** Matching and remaining records split the collection: nothing is lost
      or duplicated. */
  lemma {:induction false} MatchingPartition(rs: seq<Obj>, filter: Obj)
    ensures multiset(Matching(rs, filter)) + multiset(Remaining(rs, filter)) == multiset(rs)
    ensures |Matching(rs, filter)| + |Remaining(rs, filter)| == |rs|
  {
    if rs != [] {
      MatchingPartition(rs[1..], filter);
      assert rs == [rs[0]] + rs[1..];
    }
  }

  /** The empty filter matches every record. */
  lemma {:induction false} EmptyFilterMatchesAll(rs: seq<Obj>)
    ensures Matching(rs, []) == rs && Remaining(rs, []) == []
  {
    if rs != [] {
      EmptyFilterMatchesAll(rs[1..]);
      assert rs == [rs[0]] + rs[1..];
    }
  }

  /** A filter no record matches selects nothing and keeps everything. */
  lemma {:induction false} NoMatches(rs: seq<Obj>, filter: Obj)
    requires forall i :: 0 <= i < |rs| ==> !Matches(rs[i], filter)
    ensures Matching(rs, filter) == [] && Remaining(rs, filter) == rs
  {
    if rs != [] {
      NoMatches(rs[1..], filter);
      assert rs == [rs[0]] + rs[1..];
    }
  }

  /** Keeping the records of a valid collection preserves its invariant. */
  lemma {:induction false} RemainingValid(rs: seq<Obj>, filter: Obj, unique: set<string>)
    requires ValidRecords(rs, unique)
    ensures ValidRecords(Remaining(rs, filter), unique)
  {
    if rs != [] {
      TailValid(rs, unique);
      RemainingValid(rs[1..], filter, unique);
      if !Matches(rs[0], filter) {
        HeadApart(rs, unique);
        ConsValid(rs[0], Remaining(rs[1..], filter), unique);
      }
    }
  }

  lemma TailValid(rs: seq<Obj>, unique: set<string>)
    requires ValidRecords(rs, unique) && rs != []
    ensures ValidRecords(rs[1..], unique)
  {
    forall i, j | 0 <= i < |rs[1..]| && 0 <= j < |rs[1..]| && i != j
      ensures !Collide(rs[1..][i], rs[1..][j], unique)
    {
      assert rs[1..][i] == rs[i + 1] && rs[1..][j] == rs[j + 1];
    }
  }

  /** The first record of a valid collection collides with none after it. */
  lemma HeadApart(rs: seq<Obj>, unique: set<string>)
    requires ValidRecords(rs, unique) && rs != []
    ensures forall y :: y in rs[1..] ==> !Collide(rs[0], y, unique) && !Collide(y, rs[0], unique)
  {
    forall y | y in rs[1..] ensures !Collide(rs[0], y, unique) && !Collide(y, rs[0], unique)
    {
      var m :| 0 <= m < |rs[1..]| && rs[1..][m] == y;
      assert rs[m + 1] == y;
    }
  }

  /** A stored record that collides with no record of a valid collection
      may be put in front of it. */
  lemma ConsValid(x: Obj, rs: seq<Obj>, unique: set<string>)
    requires ValidRecords(rs, unique) && Stored(x)
    requires forall y :: y in rs ==> !Collide(x, y, unique) && !Collide(y, x, unique)
    ensures ValidRecords([x] + rs, unique)
  {
    var r := [x] + rs;
    forall i, j | 0 <= i < |r| && 0 <= j < |r| && i != j
      ensures !Collide(r[i], r[j], unique)
    {
      if i == 0 {
        assert r[j] == rs[j - 1];
      } else if j == 0 {
        assert r[i] == rs[i - 1];
      } else {
        assert r[i] == rs[i - 1] && r[j] == rs[j - 1];
      }
    }
  }

  /** The record list without the record at index `i`. */
  function RemoveAt(rs: seq<Obj>, i: nat): (r: seq<Obj>)
    requires i < |rs|
    ensures |r| == |rs| - 1
    ensures forall j :: 0 <= j < i ==> r[j] == rs[j]
    ensures forall j :: i <= j < |r| ==> r[j] == rs[j + 1]
    ensures multiset(r) + multiset{rs[i]} == multiset(rs)
  {
    assert rs == rs[..i] + [rs[i]] + rs[i + 1..];
    rs[..i] + rs[i + 1..]
  }

  /** Removing one record preserves the invariant, and since `_id`s are
      distinct no record with the removed `_id` is left. */
  lemma RemoveAtValid(rs: seq<Obj>, i: nat, unique: set<string>)
    requires i < |rs| && ValidRecords(rs, unique)
    ensures ValidRecords(RemoveAt(rs, i), unique)
    ensures forall x :: x in RemoveAt(rs, i) ==> Get(x, "_id") != Get(rs[i], "_id")
  {
    var r := RemoveAt(rs, i);
    forall a, b | 0 <= a < |r| && 0 <= b < |r| && a != b
      ensures !Collide(r[a], r[b], unique)
    {
      var a', b' := if a < i then a else a + 1, if b < i then b else b + 1;
      assert r[a] == rs[a'] && r[b] == rs[b'];
    }
    forall x | x in r ensures Get(x, "_id") != Get(rs[i], "_id")
    {
      var a :| 0 <= a < |r| && r[a] == x;
      var a' := if a < i then a else a + 1;
      assert r[a] == rs[a'] && a' != i;
      assert !Collide(rs[a'], rs[i], unique);
    }
  }

  /** The single-criterion filter `{ _id: id }`. */
  function IdFilter(id: Value): Obj
  {
    [("_id", id)]
  }

  /** In a valid collection an `_id` is found only where it is stored. */
  lemma FindById(rs: seq<Obj>, unique: set<string>, i: nat)
    requires ValidRecords(rs, unique) && i < |rs|
    ensures FirstMatch(rs, IdFilter(Get(rs[i], "_id"))) == Some(i)
  {
    var id := Get(rs[i], "_id");
    assert Matches(rs[i], IdFilter(id));
    forall j | 0 <= j < |rs| && j != i ensures !Matches(rs[j], IdFilter(id))
    {
      assert !Collide(rs[j], rs[i], unique);
      assert IdFilter(id)[0] == ("_id", id);
    }
  }

  // ---- save -------------------------------------------------------------

  /** The schema paths of `required` that `doc` lacks or holds as null, in
      schema order. */
  function MissingRequired(doc: Obj, required: seq<string>): (r: seq<string>)
    ensures forall p :: p in r <==> p in required && !Present(Get(doc, p))
  {
    if required == [] then []
    else (if Present(Get(doc, required[0])) then [] else [required[0]]) + MissingRequired(doc, required[1..])
  }

  function RequiredMessages(paths: seq<string>): seq<string>
  {
    if paths == [] then []
    else [paths[0] + ": Path `" + paths[0] + "` is required."] + RequiredMessages(paths[1..])
  }

  /** Mongoose's `ValidationError` for the missing required paths. */
  function ValidationFault(modelName: string, missing: seq<string>): (f: Fault)
    ensures f.name == "ValidationError" && f.code == None
  {
    Fault("ValidationError",
          modelName + " validation failed: " + Join(RequiredMessages(missing), ", "), None)
  }

  /** The fault MongoDB raises when a write breaks a unique index. */
  const DuplicateKey := Fault("MongoServerError", "E11000 duplicate key error", Some(DuplicateKeyCode))

  /** The fault MongoDB raises when an update would change `_id`. */
  const ImmutableId := Fault("MongoServerError",
                             "Performing an update on the path '_id' would modify the immutable field '_id'",
                             Some(66))

  /** The `TypeError` of calling `.toObject()` on the `null` that a write
      reports when no record has the requested `_id`. */
  const NullResult := Fault("TypeError", "Cannot read properties of null (reading 'toObject')", None)

  /** `new Model(data)` as saved: undefined entries are dropped, a missing
      `_id` is generated, and the timestamp `createdAt` is set to now. */
  function Stamp(data: Obj, freshId: Value, now: int): (doc: Obj)
    requires WellFormed(data) && Present(freshId)
    ensures Stored(doc)
    ensures Get(doc, "_id") == if Present(Get(data, "_id")) then Get(data, "_id") else freshId
    ensures Get(doc, "createdAt") == Date(now)
    ensures forall k :: k != "_id" && k != "createdAt" && Get(data, k) != Undefined ==>
      Lookup(doc, k) == Lookup(data, k)
    ensures forall k :: k != "_id" && k != "createdAt" && Get(data, k) == Undefined ==>
      Lookup(doc, k) == None
  {
    var d := Defined(data);
    var withId := if Present(Get(d, "_id")) then d else Put(d, "_id", freshId);
    Put(withId, "createdAt", Date(now))
  }

  // ---- findByIdAndUpdate ------------------------------------------------

  /** What a write of the store reports. */
  datatype WriteResult = Written(records: seq<Obj>, doc: Obj) | NoDocument | Rejected(fault: Fault)

  /** The `$set` that Mongoose sends for a plain update object: undefined
      keys removed and the immutable timestamp `createdAt` left out. */
  function SetOf(data: Obj): (update: Obj)
    requires WellFormed(data)
    ensures WellFormed(update)
    ensures Lookup(update, "createdAt") == None
    ensures forall k :: k != "createdAt" ==>
      Lookup(update, k) == if Get(data, k) == Undefined then None else Lookup(data, k)
  {
    Delete(Defined(data), "createdAt")
  }

  /** `Model.findByIdAndUpdate(id, data, { new: true })`: the record with
      that `_id` gets the fields of the update set over its own, and the
      updated record is returned; no such record gives `null`. An `id`
      that is `undefined` or `null` is taken to find no record, since every
      stored record has an `_id`. */
  function UpdateById(rs: seq<Obj>, unique: set<string>, id: Value, data: Obj): (w: WriteResult)
    requires WellFormed(data)
  {
    if !Present(id) then NoDocument
    else match FirstMatch(rs, IdFilter(id))
    case None => NoDocument
    case Some(j) =>
      var update := SetOf(data);
      if Lookup(update, "_id").Some? && Lookup(update, "_id").value != Get(rs[j], "_id") then Rejected(ImmutableId)
      else
        var doc := Spread(rs[j], update);
        if Clash(rs, doc, j, unique) then Rejected(DuplicateKey)
        else Written(rs[j := doc], doc)
  }

  /** A successful update changes exactly the record found by `_id`: it keeps
      its `_id` and `createdAt`, takes every defined field of the update,
      keeps its other fields, and the collection stays valid. */
  lemma UpdateByIdWritten(rs: seq<Obj>, unique: set<string>, id: Value, data: Obj)
    requires ValidRecords(rs, unique) && WellFormed(data)
    requires UpdateById(rs, unique, id, data).Written?
    ensures var w := UpdateById(rs, unique, id, data);
      var j := FirstMatch(rs, IdFilter(id)).value;
      && w.records == rs[j := w.doc]
      && Get(w.doc, "_id") == Get(rs[j], "_id") && Get(w.doc, "_id") == id
      && Get(w.doc, "createdAt") == Get(rs[j], "createdAt")
      && (forall k :: k != "createdAt" && Get(data, k) != Undefined ==> Lookup(w.doc, k) == Lookup(data, k))
      && (forall k :: (k == "createdAt" || Get(data, k) == Undefined) ==> Lookup(w.doc, k) == Lookup(rs[j], k))
      && ValidRecords(w.records, unique)
  {
    var j := FirstMatch(rs, IdFilter(id)).value;
    assert IdFilter(id)[0] == ("_id", id);
    assert FieldMatches(rs[j], "_id", id);
    SetOverRecord(rs[j], data);
    ReplaceValid(rs, j, Spread(rs[j], SetOf(data)), unique);
  }

  /** The same, for a write reported as `Written(rs', doc)`: `doc` has the
      requested `_id` and the defined fields of `data` except `createdAt`,
      and it replaces the record that had that `_id`. */
  lemma WrittenById(rs: seq<Obj>, unique: set<string>, id: Value, data: Obj, rs': seq<Obj>, doc: Obj)
    requires ValidRecords(rs, unique) && WellFormed(data)
    requires UpdateById(rs, unique, id, data) == Written(rs', doc)
    ensures Get(doc, "_id") == id
    ensures forall k :: k != "createdAt" && Get(data, k) != Undefined ==> Lookup(doc, k) == Lookup(data, k)
    ensures exists j :: 0 <= j < |rs| && Get(rs[j], "_id") == id && rs' == rs[j := doc]
    ensures doc in rs'
  {
    UpdateByIdWritten(rs, unique, id, data);
    var j := FirstMatch(rs, IdFilter(id)).value;
    assert Get(rs[j], "_id") == id && rs' == rs[j := doc];
    assert rs'[j] == doc;
  }

  /** A write reported as `Written(rs', doc)` keeps the collection valid. */
  lemma WrittenValid(rs: seq<Obj>, unique: set<string>, id: Value, data: Obj, rs': seq<Obj>, doc: Obj)
    requires ValidRecords(rs, unique) && WellFormed(data)
    requires UpdateById(rs, unique, id, data) == Written(rs', doc)
    ensures ValidRecords(rs', unique)
  {
    UpdateByIdWritten(rs, unique, id, data);
  }

  /** Setting the `$set` of `data` over a stored record whose `_id` it does
      not change: the record stays stored, keeps `_id` and `createdAt`, and
      takes the defined fields of `data`. */
  lemma SetOverRecord(rec: Obj, data: Obj)
    requires Stored(rec) && WellFormed(data)
    requires Lookup(SetOf(data), "_id").None? || Lookup(SetOf(data), "_id").value == Get(rec, "_id")
    ensures var doc := Spread(rec, SetOf(data));
      && Stored(doc)
      && Get(doc, "_id") == Get(rec, "_id")
      && Get(doc, "createdAt") == Get(rec, "createdAt")
      && (forall k :: k != "createdAt" && Get(data, k) != Undefined ==> Lookup(doc, k) == Lookup(data, k))
      && (forall k :: (k == "createdAt" || Get(data, k) == Undefined) ==> Lookup(doc, k) == Lookup(rec, k))
  {
  }

  /** Replacing one record by a stored record that clashes with no other
      keeps the invariant. */
  lemma ReplaceValid(rs: seq<Obj>, j: nat, doc: Obj, unique: set<string>)
    requires ValidRecords(rs, unique) && j < |rs| && Stored(doc) && !Clash(rs, doc, j, unique)
    ensures ValidRecords(rs[j := doc], unique)
  {
    var r := rs[j := doc];
    forall a, b | 0 <= a < |r| && 0 <= b < |r| && a != b
      ensures !Collide(r[a], r[b], unique)
    {
      if a == j {
        assert !Collide(rs[b], doc, unique);
        CollideSymmetric(rs[b], doc, unique);
      } else if b == j {
        assert !Collide(rs[a], doc, unique);
      }
    }
  }

  /** How far a `try` block got: it finished with the new records and the
      record to return, or something was thrown. */
  datatype Attempt = Done(records: seq<Obj>, doc: Obj) | Threw(thrown: Thrown)

  /** The tail shared by both updates once a record was found:
      `new Model(data).validate()`, then `findByIdAndUpdate(id, data)`, then
      `.toObject()` on what it returns. */
  function ValidateAndWrite(model: Collection, data: Obj, id: Value): Attempt
    reads model
    requires WellFormed(data)
  {
    var missing := MissingRequired(data, model.required);
    if missing != [] then Threw(ThrownFault(ValidationFault(model.modelName, missing)))
    else
      match UpdateById(model.records, model.unique, id, data)
      case NoDocument => Threw(ThrownFault(NullResult))
      case Rejected(fault) => Threw(ThrownFault(fault))
      case Written(rs', doc) => Done(rs', doc)
  }

  /** A write that got through validated the data and is the store's
      `Written` report: the returned record has the requested `_id`, every
      defined field of the data except `createdAt`, and is stored. */
  lemma WriteStoresData(model: Collection, data: Obj, id: Value)
    requires model.Valid() && WellFormed(data)
    requires ValidateAndWrite(model, data, id).Done?
    ensures var a := ValidateAndWrite(model, data, id);
      && MissingRequired(data, model.required) == []
      && UpdateById(model.records, model.unique, id, data) == Written(a.records, a.doc)
      && Get(a.doc, "_id") == id
      && (forall k :: k != "createdAt" && Get(data, k) != Undefined ==> Lookup(a.doc, k) == Lookup(data, k))
      && a.doc in a.records
  {
    var w := UpdateById(model.records, model.unique, id, data);
    assert MissingRequired(data, model.required) == [];
    assert w.Written?;
    WrittenById(model.records, model.unique, id, data, w.records, w.doc);
  }

  /** Validate-and-write keeps the collection valid. */
  lemma WriteKeepsValid(model: Collection, data: Obj, id: Value)
    requires model.Valid() && WellFormed(data)
    requires ValidateAndWrite(model, data, id).Done?
    ensures ValidRecords(ValidateAndWrite(model, data, id).records, model.unique)
  {
    var w := UpdateById(model.records, model.unique, id, data);
    assert MissingRequired(data, model.required) == [];
    assert w.Written?;
    WrittenValid(model.records, model.unique, id, data, w.records, w.doc);
  }

  lemma CollideSymmetric(a: Obj, b: Obj, unique: set<string>)
    ensures Collide(a, b, unique) == Collide(b, a, unique)
  {
    if Collide(b, a, unique) && Get(a, "_id") != Get(b, "_id") {
      var k :| k in unique && IndexKey(Get(b, k)) == IndexKey(Get(a, k));
      assert IndexKey(Get(a, k)) == IndexKey(Get(b, k));
    }
  }

  /** Appending a record that clashes with none keeps the invariant, and the
      new record is then what a lookup by its `_id` finds. */
  lemma AppendValid(rs: seq<Obj>, doc: Obj, unique: set<string>)
    requires ValidRecords(rs, unique) && Stored(doc) && !Clash(rs, doc, -1, unique)
    ensures ValidRecords(rs + [doc], unique)
    ensures FirstMatch(rs + [doc], IdFilter(Get(doc, "_id"))) == Some(|rs|)
  {
    var r := rs + [doc];
    forall a, b | 0 <= a < |r| && 0 <= b < |r| && a != b
      ensures !Collide(r[a], r[b], unique)
    {
      if a == |rs| {
        CollideSymmetric(rs[b], doc, unique);
      }
    }
    FindById(r, unique, |rs|);
  }

  // ---- find, sorted and paged -------------------------------------------

  /** The `sort` option: `{}` keeps store order; `{ createdAt: 1 }` and
      `{ createdAt: -1 }` order by creation time. */
  datatype SortSpec = StoreOrder | ByCreatedAt(ascending: bool)

  function CreatedAt(rec: Obj): int
  {
    match Get(rec, "createdAt")
    case Date(ms) => ms
    case _ => 0
  }

  predicate InOrder(a: Obj, b: Obj, ascending: bool)
  {
    if ascending then CreatedAt(a) <= CreatedAt(b) else CreatedAt(a) >= CreatedAt(b)
  }

  predicate SortedBy(s: seq<Obj>, ascending: bool)
  {
    forall i, j :: 0 <= i < j < |s| ==> InOrder(s[i], s[j], ascending)
  }

  /** Inserts `x` before the first element it may precede, so that `x`,
      which comes earlier in store order, stays ahead of records with the
      same creation time. */
  function InsertSorted(x: Obj, s: seq<Obj>, ascending: bool): seq<Obj>
  {
    if s == [] then [x]
    else if InOrder(x, s[0], ascending) then [x] + s
    else [s[0]] + InsertSorted(x, s[1..], ascending)
  }

  /** Insertion adds exactly the one element. */
  lemma {:induction false} InsertSortedMultiset(x: Obj, s: seq<Obj>, ascending: bool)
    ensures multiset(InsertSorted(x, s, ascending)) == multiset(s) + multiset{x}
  {
    if s != [] && !InOrder(x, s[0], ascending) {
      InsertSortedMultiset(x, s[1..], ascending);
      assert s == [s[0]] + s[1..];
    }
  }

  /** Insertion into a sorted list keeps it sorted. */
  lemma {:induction false} InsertSortedSorted(x: Obj, s: seq<Obj>, ascending: bool)
    requires SortedBy(s, ascending)
    ensures SortedBy(InsertSorted(x, s, ascending), ascending)
  {
    if s != [] && !InOrder(x, s[0], ascending) {
      assert SortedBy(s[1..], ascending);
      InsertSortedSorted(x, s[1..], ascending);
      var rest := InsertSorted(x, s[1..], ascending);
      InsertSortedMultiset(x, s[1..], ascending);
      HeadPrecedes(x, s, rest, ascending);
    }
  }

  /** The head of a sorted list precedes whatever is made of its tail and
      an element it does not follow. */
  lemma HeadPrecedes(x: Obj, s: seq<Obj>, rest: seq<Obj>, ascending: bool)
    requires |s| > 0 && SortedBy(s, ascending) && InOrder(s[0], x, ascending)
    requires multiset(rest) == multiset(s[1..]) + multiset{x}
    ensures forall i :: 0 <= i < |rest| ==> InOrder(s[0], rest[i], ascending)
  {
    forall i | 0 <= i < |rest| ensures InOrder(s[0], rest[i], ascending) {
      assert rest[i] in multiset(rest);
      if rest[i] != x {
        assert rest[i] in multiset(s[1..]);
        var m :| 0 <= m < |s[1..]| && s[1..][m] == rest[i];
        assert s[m + 1] == rest[i];
      }
    }
  }

  lemma MultisetCons(s: seq<Obj>)
    requires s != []
    ensures multiset(s) == multiset(s[1..]) + multiset{s[0]}
  {
    assert s == [s[0]] + s[1..];
  }

  /** A stable sort of the records by creation time. */
  function SortByCreatedAt(s: seq<Obj>, ascending: bool): (r: seq<Obj>)
    ensures SortedBy(r, ascending)
    ensures multiset(r) == multiset(s)
  {
    if s == [] then []
    else
      var sorted := SortByCreatedAt(s[1..], ascending);
      InsertSortedSorted(s[0], sorted, ascending);
      InsertSortedMultiset(s[0], sorted, ascending);
      MultisetCons(s);
      InsertSorted(s[0], sorted, ascending)
  }

  function SortRecords(s: seq<Obj>, spec: SortSpec): (r: seq<Obj>)
    ensures multiset(r) == multiset(s) && |r| == |s|
    ensures spec.ByCreatedAt? ==> SortedBy(r, spec.ascending)
  {
    match spec
    case StoreOrder => s
    case ByCreatedAt(asc) =>
      var r := SortByCreatedAt(s, asc);
      assert |multiset(r)| == |multiset(s)|;
      r
  }

  /** `.skip(skip).limit(limit)`: drop the first `skip`, then keep at most
      `limit`; a limit of 0 means no limit, as in MongoDB. */
  function Page(s: seq<Obj>, skip: nat, limit: nat): (r: seq<Obj>)
    ensures skip >= |s| ==> r == []
    ensures skip < |s| ==> |r| == if limit == 0 || skip + limit > |s| then |s| - skip else limit
    ensures forall i :: 0 <= i < |r| ==> skip + i < |s| && r[i] == s[skip + i]
  {
    var dropped := if skip >= |s| then [] else s[skip..];
    if limit == 0 || limit >= |dropped| then dropped else dropped[..limit]
  }

  /** A page of five holding the second and third: skip 1, limit 2. */
  lemma PageOfFive(s: seq<Obj>)
    requires |s| == 5
    ensures Page(s, 1, 2) == [s[1], s[2]]
  {
  }

  /** Two records that both lack a uniquely indexed path, or hold `null`
      on it, collide: the index holds `null` for each. */
  lemma MissingCollide(a: Obj, b: Obj, unique: set<string>, k: string)
    requires k in unique && !Present(Get(a, k)) && !Present(Get(b, k))
    ensures Collide(a, b, unique)
  {
    assert IndexKey(Get(a, k)) == Null == IndexKey(Get(b, k));
  }
}
