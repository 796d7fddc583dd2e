/** `deleteMany(Model, params)`: delete every record matching a copy of
    params and answer with the store's summary. */
module DeleteMany {
  import opened Objects
  import opened Errors
  import opened Filters
  import opened Store

  /** `Object.assign({}, params)`: a fresh object with the same entries, in
      the same order. */
  function CopyOf(params: Obj): (copy: Obj)
    requires WellFormed(params)
    ensures copy == params
  {
    SpreadFresh([], params);
    Spread([], params)
  }

  /** The deleted count is what the filter matched, and the records left are
      the rest: nothing is lost or duplicated. */
  lemma DeletedCount(rs: seq<Obj>, filter: Obj)
    ensures |Matching(rs, filter)| == |rs| - |Remaining(rs, filter)|
    ensures multiset(Remaining(rs, filter)) == multiset(rs) - multiset(Matching(rs, filter))
  {
    MatchingPartition(rs, filter);
  }

  /** Params no record matches delete nothing and count zero. */
  lemma NoMatchDeletesNothing(rs: seq<Obj>, params: Obj)
    requires WellFormed(params)
    requires forall i :: 0 <= i < |rs| ==> !Matches(rs[i], params)
    ensures Remaining(rs, CopyOf(params)) == rs && |Matching(rs, CopyOf(params))| == 0
  {
    NoMatches(rs, params);
  }

  /** Empty params delete the whole collection. */
  lemma EmptyParamsDeleteAll(rs: seq<Obj>)
    ensures Remaining(rs, CopyOf([])) == [] && |Matching(rs, CopyOf([]))| == |rs|
  {
    EmptyFilterMatchesAll(rs);
  }

  /** `deleteMany(Model, params)`: the store needs the connection; then the
      records matching the copy of params are removed, and the summary counts
      them. */
  method DeleteMany(model: Collection, params: Obj) returns (r: Response)
    requires model.Valid() && WellFormed(params)
    modifies model
    ensures model.Valid() && model.connected == old(model.connected)
    ensures !model.connected ==> r == Err(Native(NotConnected)) && model.records == old(model.records)
    ensures model.connected ==>
      && r == Ok(200, Summary(true, |Matching(old(model.records), params)|))
      && model.records == Remaining(old(model.records), params)
  {
    var filter := CopyOf(params);
    if !model.connected {
      return Err(Native(NotConnected));
    }
    var deleted := Matching(model.records, filter);
    RemainingValid(model.records, filter, model.unique);
    model.records := Remaining(model.records, filter);
    r := Ok(200, Summary(true, |deleted|));
  }
}
