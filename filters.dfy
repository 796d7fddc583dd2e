/** Filters: how the single-document operations turn `params` into the
    filter they query with, and what it means for a stored record to match
    a filter of equality criteria. */
module Filters {
  import opened Objects

  /** `paramsCopy.id`: `undefined` when params has no `id`. */
  function IdParam(params: Obj): Value
  {
    Get(params, "id")
  }

  /** The copy of params with `id` deleted: `Object.assign({}, params)`
      followed by `delete paramsCopy.id`, on the copy only. */
  function RestParams(params: Obj): (rest: Obj)
    requires WellFormed(params)
    ensures WellFormed(rest)
    ensures Lookup(rest, "id") == None
    ensures forall k :: k != "id" ==> Lookup(rest, k) == Lookup(params, k)
    ensures Keys(rest) == Without(Keys(params), ["id"])
  {
    Delete(params, "id")
  }

  /** The filter `{ _id, ...paramsCopy }` shared by readOne, updateOne,
      patchOne and deleteOne: `_id` holds `params.id`, unless params itself
      carries an `_id`, which then wins; every other param keeps its value;
      `id` is gone. */
  function ResolveFilter(params: Obj): (filter: Obj)
    requires WellFormed(params)
    ensures WellFormed(filter)
    ensures Get(filter, "_id") == if "_id" in Keys(params) then Get(params, "_id") else IdParam(params)
    ensures Lookup(filter, "id") == None
    ensures forall k :: k != "id" && k != "_id" ==> Lookup(filter, k) == Lookup(params, k)
  {
    var head := [("_id", IdParam(params))];
    SingleEntry("_id", IdParam(params));
    Spread(head, RestParams(params))
  }

  /** The keys of the resolved filter: `_id` first, then the other params in
      insertion order. */
  lemma ResolveFilterKeys(params: Obj)
    requires WellFormed(params)
    ensures Keys(ResolveFilter(params)) == ["_id"] + Without(Without(Keys(params), ["id"]), ["_id"])
    ensures |ResolveFilter(params)| > 0 && ResolveFilter(params)[0].0 == "_id"
  {
    var rest := RestParams(params);
    SpreadKeys([("_id", IdParam(params))], rest);
    assert Keys([("_id", IdParam(params))]) == ["_id"];
    var filter := ResolveFilter(params);
    assert Keys(filter)[0] == filter[0].0;
  }

  /** Without an `_id` param, the filter's first entry is `_id: params.id`. */
  lemma ResolveFilterFirst(params: Obj)
    requires WellFormed(params) && "_id" !in Keys(params)
    ensures ResolveFilter(params)[0] == ("_id", IdParam(params))
  {
    ResolveFilterKeys(params);
    var filter := ResolveFilter(params);
    assert Lookup(filter, "_id") == Some(IdParam(params));
    assert filter[0].0 == "_id";
  }

  /** Whether the stored record `rec` meets the criterion `k: v`. Mongoose
      leaves an `undefined` criterion out of the query, so it matches every
      record; `null` matches a missing or null field; any other value
      matches itself. */
  predicate FieldMatches(rec: Obj, k: string, v: Value)
  {
    if v == Undefined then true
    else if v == Null then Lookup(rec, k) == None || Lookup(rec, k) == Some(Null)
    else Lookup(rec, k) == Some(v)
  }

  /** Whether `rec` meets every criterion of the filter. */
  predicate Matches(rec: Obj, filter: Obj)
  {
    forall i :: 0 <= i < |filter| ==> FieldMatches(rec, filter[i].0, filter[i].1)
  }

  /** A match meets each criterion the filter holds. */
  lemma MatchesLookup(rec: Obj, filter: Obj, k: string)
    requires Matches(rec, filter) && k in Keys(filter)
    ensures FieldMatches(rec, k, Get(filter, k))
  {
    var v := Get(filter, k);
    assert (k, v) in filter;
    var i :| 0 <= i < |filter| && filter[i] == (k, v);
  }

  /** Params without `id` or `_id` give the filter `{ _id: undefined,
      ...params }`, which selects exactly the records params alone select. */
  lemma ResolveWithoutId(rec: Obj, params: Obj)
    requires WellFormed(params) && "id" !in Keys(params) && "_id" !in Keys(params)
    ensures Matches(rec, ResolveFilter(params)) <==> Matches(rec, params)
  {
    var filter := ResolveFilter(params);
    if Matches(rec, filter) {
      forall i | 0 <= i < |params| ensures FieldMatches(rec, params[i].0, params[i].1) {
        LookupEntry(params, i);
        MatchesLookup(rec, filter, params[i].0);
      }
    }
    if Matches(rec, params) {
      forall i | 0 <= i < |filter| ensures FieldMatches(rec, filter[i].0, filter[i].1) {
        LookupEntry(filter, i);
        var k := filter[i].0;
        if k != "_id" {
          assert (k, filter[i].1) in params;
        }
      }
    }
  }

  /** A record matching a resolved filter carries the requested `_id`
      (when that is defined) and the value of every other non-null param. */
  lemma ResolvedMatch(rec: Obj, params: Obj)
    requires WellFormed(params) && Matches(rec, ResolveFilter(params))
    ensures var id := Get(ResolveFilter(params), "_id");
      Present(id) ==> Lookup(rec, "_id") == Some(id)
    ensures forall k :: k != "id" && k != "_id" && Present(Get(params, k)) ==>
      Lookup(rec, k) == Lookup(params, k)
  {
    var filter := ResolveFilter(params);
    MatchesLookup(rec, filter, "_id");
    forall k | k != "id" && k != "_id" && Present(Get(params, k))
      ensures Lookup(rec, k) == Lookup(params, k)
    {
      MatchesLookup(rec, filter, k);
    }
  }
}
