/** Plain JavaScript objects as the facade handles them: an ordered list of
    key/value entries, kept in insertion order, where a key occurs at most
    once in a well-formed object. Assignment to an existing key keeps its
    position; assignment to a new key appends it; object spread and
    `Object.assign` are a sequence of such assignments. */
module Objects {

  datatype Option<T> = None | Some(value: T)

  /** The values the facade passes around: scalars, Mongo ObjectIds (by their
      hexadecimal string) and dates (by milliseconds since the epoch). */
  datatype Value =
    | Undefined
    | Null
    | Bool(b: bool)
    | Num(n: int)
    | Str(s: string)
    | ObjectId(hex: string)
    | Date(ms: int)

  /** Neither `null` nor `undefined`. */
  predicate Present(v: Value)
  {
    v != Null && v != Undefined
  }

  type Entry = (string, Value)

  type Obj = seq<Entry>

  /** The keys of an object, in insertion order. */
  function Keys(o: Obj): seq<string>
  {
    if o == [] then [] else [o[0].0] + Keys(o[1..])
  }

  /** No key occurs twice. */
  predicate WellFormed(o: Obj)
  {
    o == [] || (o[0].0 !in Keys(o[1..]) && WellFormed(o[1..]))
  }

  /** Property read `o[k]`; `None` when the object has no such own key. */
  function Lookup(o: Obj, k: string): (r: Option<Value>)
    ensures r.Some? <==> k in Keys(o)
    ensures r.Some? ==> (k, r.value) in o
  {
    if o == [] then None
    else if o[0].0 == k then Some(o[0].1)
    else Lookup(o[1..], k)
  }

  /** The one-entry object `{ k0: v }`. */
  lemma SingleEntry(k0: string, v: Value)
    ensures WellFormed([(k0, v)]) && Keys([(k0, v)]) == [k0]
    ensures forall k :: Lookup([(k0, v)], k) == if k == k0 then Some(v) else None
  {
    var o := [(k0, v)];
    assert o[1..] == [];
    forall k ensures Lookup(o, k) == if k == k0 then Some(v) else None {
      if k != k0 {
        assert Lookup(o, k) == Lookup(o[1..], k);
      }
    }
  }

  /** `o[k]` read the JavaScript way: a missing key reads as `undefined`. */
  function Get(o: Obj, k: string): (v: Value)
    ensures k !in Keys(o) ==> v == Undefined
    ensures k in Keys(o) ==> Lookup(o, k) == Some(v)
  {
    match Lookup(o, k)
    case Some(v) => v
    case None => Undefined
  }

  /** The keys of `ks` that do not occur in `seen`, in their order. */
  function Without(ks: seq<string>, seen: seq<string>): (r: seq<string>)
    ensures forall k :: k in r <==> k in ks && k !in seen
  {
    if ks == [] then []
    else (if ks[0] in seen then [] else [ks[0]]) + Without(ks[1..], seen)
  }

  /** Assignment `o[k] = v`. */
  function Put(o: Obj, k: string, v: Value): (r: Obj)
    ensures Lookup(r, k) == Some(v)
    ensures forall k' :: k' != k ==> Lookup(r, k') == Lookup(o, k')
    ensures Keys(r) == if k in Keys(o) then Keys(o) else Keys(o) + [k]
    ensures WellFormed(o) ==> WellFormed(r)
  {
    if o == [] then [(k, v)]
    else if o[0].0 == k then [(k, v)] + o[1..]
    else [o[0]] + Put(o[1..], k, v)
  }

  /** `delete o[k]`. */
  function Delete(o: Obj, k: string): (r: Obj)
    ensures Lookup(r, k) == None
    ensures forall k' :: k' != k ==> Lookup(r, k') == Lookup(o, k')
    ensures Keys(r) == Without(Keys(o), [k])
    ensures WellFormed(o) ==> WellFormed(r)
  {
    if o == [] then []
    else if o[0].0 == k then Delete(o[1..], k)
    else [o[0]] + Delete(o[1..], k)
  }

  /** Object spread `{...a, ...b}`, and equally `Object.assign(a, b)`: the
      entries of `b` are assigned over `a` one by one, so `b` wins. */
  function Spread(a: Obj, b: Obj): (r: Obj)
    decreases |b|
    ensures WellFormed(a) ==> WellFormed(r)
    ensures WellFormed(b) ==>
      forall k :: Lookup(r, k) == if k in Keys(b) then Lookup(b, k) else Lookup(a, k)
  {
    if b == [] then a
    else Spread(Put(a, b[0].0, b[0].1), b[1..])
  }

  lemma {:induction false} WithoutIgnoresAbsent(ks: seq<string>, seen: seq<string>, k: string)
    requires k !in ks
    ensures Without(ks, seen + [k]) == Without(ks, seen)
  {
    if ks != [] {
      WithoutIgnoresAbsent(ks[1..], seen, k);
    }
  }

  /** Spread keeps the keys of `a` where they are and appends the keys of `b`
      that `a` lacks, in `b`'s order. */
  lemma {:induction false} SpreadKeys(a: Obj, b: Obj)
    requires WellFormed(b)
    ensures Keys(Spread(a, b)) == Keys(a) + Without(Keys(b), Keys(a))
    decreases |b|
  {
    if b != [] {
      var k := b[0].0;
      var a' := Put(a, k, b[0].1);
      SpreadKeys(a', b[1..]);
      if k !in Keys(a) {
        WithoutIgnoresAbsent(Keys(b[1..]), Keys(a), k);
      }
    }
  }

  lemma ConsAppend(o: Obj, e: Entry)
    requires o != []
    ensures [o[0]] + (o[1..] + [e]) == o + [e]
  {
    assert o == [o[0]] + o[1..];
  }

  /** Assigning a key the object lacks appends it. */
  lemma {:induction false} PutNew(o: Obj, k: string, v: Value)
    requires k !in Keys(o)
    ensures Put(o, k, v) == o + [(k, v)]
  {
    if o != [] {
      assert o[0].0 != k;
      PutNew(o[1..], k, v);
      ConsAppend(o, (k, v));
    }
  }

  lemma {:induction false} KeysAppend(a: Obj, b: Obj)
    ensures Keys(a + b) == Keys(a) + Keys(b)
  {
    if a == [] {
      assert a + b == b;
    } else {
      KeysAppend(a[1..], b);
      assert (a + b)[0] == a[0] && (a + b)[1..] == a[1..] + b;
    }
  }

  /** After the first entry of `b` is appended to `a`, the rest of `b` still
      shares no key with it. */
  lemma FreshTail(a: Obj, b: Obj)
    requires WellFormed(b) && b != []
    requires forall k :: k in Keys(b) ==> k !in Keys(a)
    ensures WellFormed(b[1..])
    ensures forall k :: k in Keys(b[1..]) ==> k !in Keys(a + [b[0]])
  {
    KeysAppend(a, [b[0]]);
    assert Keys([b[0]]) == [b[0].0] by { assert [b[0]][1..] == []; }
  }

  lemma AppendFirst(a: Obj, b: Obj)
    requires b != []
    ensures a + [b[0]] + b[1..] == a + b
  {
    assert b == [b[0]] + b[1..];
  }

  /** Spreading onto an object that shares no key with the source copies
      the source's entries after it, in order; in particular the copy
      `Object.assign({}, o)` of a well-formed object equals it. */
  lemma {:induction false} SpreadFresh(a: Obj, b: Obj)
    requires WellFormed(b)
    requires forall k :: k in Keys(b) ==> k !in Keys(a)
    ensures Spread(a, b) == a + b
    decreases |b|
  {
    if b != [] {
      var a' := a + [b[0]];
      assert b[0].0 in Keys(b);
      PutNew(a, b[0].0, b[0].1);
      assert Put(a, b[0].0, b[0].1) == a';
      FreshTail(a, b);
      SpreadFresh(a', b[1..]);
      AppendFirst(a, b);
    }
  }

  /** The entries of `o` whose value is not `undefined`. */
  function Defined(o: Obj): (r: Obj)
    ensures WellFormed(o) ==> WellFormed(r)
    ensures forall k :: k in Keys(r) ==> k in Keys(o)
    ensures WellFormed(o) ==>
      forall k :: Lookup(r, k) == if Lookup(o, k) == Some(Undefined) then None else Lookup(o, k)
  {
    if o == [] then []
    else if o[0].1 == Undefined then Defined(o[1..])
    else [o[0]] + Defined(o[1..])
  }

  /** In a well-formed object, reading an entry's key gives that entry's
      value. */
  lemma {:induction false} LookupEntry(o: Obj, i: nat)
    requires WellFormed(o) && i < |o|
    ensures Lookup(o, o[i].0) == Some(o[i].1)
  {
    if i > 0 {
      LookupEntry(o[1..], i - 1);
      assert o[1..][i - 1] == o[i];
    }
  }
}
