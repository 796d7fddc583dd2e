/** `list(Model, params, query)`: resolve the query options to their
    defaults, merge params into the query's filter object, and read one
    sorted page of the matching records together with the count of all of
    them. */
module List {
  import opened Objects
  import opened Json
  import opened Errors
  import opened Filters
  import opened Store

  /** A `skip` or `limit` option as the caller passes it: left out, a
      non-negative number, or a string (a query string's value). */
  datatype CountParam = Absent | Number(n: nat) | Text(s: string)

  /** The strings read here are decimal digit strings (or empty). */
  predicate CountParamOk(k: CountParam)
  {
    k.Text? ==> AllDigits(k.s)
  }

  /** `undefined`, `0` and `""` are falsy and fall back to the default. */
  predicate Falsy(k: CountParam)
  {
    k == Absent || k == Number(0) || k == Text("")
  }

  /** A mutable plain object, as `query.filter` is: the caller keeps the
      reference, so an update through it is visible to the caller. */
  class ObjectRef {
    var entries: Obj

    constructor (entries: Obj)
      ensures this.entries == entries
    {
      this.entries := entries;
    }
  }

  /** The `query` argument; the projection `select` is not modelled. */
  datatype Query = Query(filter: Option<ObjectRef>, skip: CountParam, limit: CountParam, sort: Option<SortSpec>)

  /** What `query.skip || 0` or `query.limit || 10` followed by the string
      check amounts to: a falsy option takes the default, a number stays,
      and a non-empty string is parsed. */
  function CountOption(k: CountParam, default: nat): (n: nat)
    requires CountParamOk(k)
    ensures Falsy(k) ==> n == default
    ensures k.Number? && k.n != 0 ==> n == k.n
    ensures k.Text? && k.s != "" ==> n == ParseInt(k.s)
  {
    match k
    case Absent => default
    case Number(m) => if m == 0 then default else m
    case Text(s) => if s == "" then default else ParseInt(s)
  }

  /** A count passed as its decimal string means what the number means. */
  lemma TextAsNumber(n: nat, default: nat)
    requires n != 0
    ensures CountOption(Text(NatToDecimal(n)), default) == CountOption(Number(n), default)
  {
    ParseIntOfDecimal(n);
  }

  /** A numeric `limit: 0` is falsy and becomes 10, but the string `"0"` is
      truthy and parses to 0, which the store reads as no limit at all. */
  lemma LimitZero()
    ensures CountOption(Number(0), 10) == 10
    ensures CountOption(Text("0"), 10) == 0
  {
    assert "0"[..0] == "";
  }

  /** `query.sort || { createdAt: -1 }`: newest first unless a sort is
      given. */
  function SortOf(sort: Option<SortSpec>): (spec: SortSpec)
    ensures sort.None? ==> spec == ByCreatedAt(false)
    ensures sort.Some? ==> spec == sort.value
  {
    if sort.Some? then sort.value else ByCreatedAt(false)
  }

  /** What the two reads return: `find(filter).sort(sort).skip(skip)
      .limit(limit)` and `count(filter)`. */
  function ListPage(rs: seq<Obj>, filter: Obj, sort: SortSpec, skip: nat, limit: nat): Payload
  {
    var matches := Matching(rs, filter);
    Listing(Page(SortRecords(matches, sort), skip, limit), |matches|)
  }

  /** The page holds stored records that match the filter, at most `limit`
      of them unless the limit is 0, and the count is that of every match,
      whatever the page. */
  lemma ListPageContents(rs: seq<Obj>, filter: Obj, sort: SortSpec, skip: nat, limit: nat)
    ensures var p := ListPage(rs, filter, sort, skip, limit);
      && p.Listing?
      && p.count == |Matching(rs, filter)|
      && (forall x :: x in p.items ==> x in rs && Matches(x, filter))
      && (limit != 0 ==> |p.items| <= limit)
      && |p.items| <= p.count
  {
    var matches := Matching(rs, filter);
    var sorted := SortRecords(matches, sort);
    var items := Page(sorted, skip, limit);
    forall x | x in items ensures x in rs && Matches(x, filter) {
      var i :| 0 <= i < |items| && items[i] == x;
      assert sorted[skip + i] in multiset(sorted);
    }
  }

  /** The count does not depend on the page asked for. */
  lemma CountIgnoresPaging(rs: seq<Obj>, filter: Obj, sort: SortSpec, skip: nat, limit: nat, skip': nat, limit': nat)
    ensures ListPage(rs, filter, sort, skip, limit).count == ListPage(rs, filter, sort, skip', limit').count
  {
  }

  /** Without a sort option the page runs from newest to oldest. */
  lemma DefaultNewestFirst(rs: seq<Obj>, filter: Obj, skip: nat, limit: nat)
    ensures var items := ListPage(rs, filter, SortOf(None), skip, limit).items;
      forall i, j :: 0 <= i < j < |items| ==> CreatedAt(items[i]) >= CreatedAt(items[j])
  {
    var sorted := SortRecords(Matching(rs, filter), ByCreatedAt(false));
    var items := Page(sorted, skip, limit);
    forall i, j | 0 <= i < j < |items| ensures CreatedAt(items[i]) >= CreatedAt(items[j]) {
      assert InOrder(sorted[skip + i], sorted[skip + j], false);
    }
  }

  /** A filter nothing matches lists nothing and counts zero. */
  lemma ListNoMatches(rs: seq<Obj>, filter: Obj, sort: SortSpec, skip: nat, limit: nat)
    requires forall i :: 0 <= i < |rs| ==> !Matches(rs[i], filter)
    ensures ListPage(rs, filter, sort, skip, limit) == Listing([], 0)
  {
    NoMatches(rs, filter);
  }

  /** Skip 1 and limit 2 over five matches, oldest first, list the second
      and the third. */
  lemma SecondAndThird(rs: seq<Obj>, filter: Obj)
    requires |Matching(rs, filter)| == 5
    ensures var sorted := SortRecords(Matching(rs, filter), ByCreatedAt(true));
      ListPage(rs, filter, ByCreatedAt(true), 1, 2) == Listing([sorted[1], sorted[2]], 5)
  {
  }

  /** `list(Model, params, query)`: the query filter (a fresh `{}` when
      absent) receives the params, then both reads run against the merged
      filter. The caller's filter object is updated in place, before the
      store is reached, whatever the outcome. */
  method List(model: Collection, params: Obj, query: Query) returns (r: Response)
    requires WellFormed(params) && CountParamOk(query.skip) && CountParamOk(query.limit)
    requires query.filter.Some? ==> WellFormed(query.filter.value.entries)
    modifies if query.filter.Some? then {query.filter.value} else {}
    ensures query.filter.Some? ==> query.filter.value.entries == Spread(old(query.filter.value.entries), params)
    ensures !model.connected ==> r == Err(Native(NotConnected))
    ensures model.connected ==>
      var filter := Spread(if query.filter.Some? then old(query.filter.value.entries) else [], params);
      r == Ok(200, ListPage(model.records, filter, SortOf(query.sort),
                            CountOption(query.skip, 0), CountOption(query.limit, 10)))
  {
    var filter: ObjectRef;
    if query.filter.Some? {
      filter := query.filter.value;
    } else {
      filter := new ObjectRef([]);
    }
    var skip := if Falsy(query.skip) then Number(0) else query.skip;
    var limit := if Falsy(query.limit) then Number(10) else query.limit;
    var sort := SortOf(query.sort);

    filter.entries := Spread(filter.entries, params);

    if skip.Text? {
      skip := Number(ParseInt(skip.s));
    }
    if limit.Text? {
      limit := Number(ParseInt(limit.s));
    }

    if !model.connected {
      return Err(Native(NotConnected));
    }
    var matches := Matching(model.records, filter.entries);
    var items := Page(SortRecords(matches, sort), skip.n, limit.n);
    var count := |matches|;
    r := Ok(200, Listing(items, count));
  }
}
