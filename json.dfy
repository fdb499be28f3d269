/** Parsed JSON request data as JavaScript sees it: values with their runtime types, and
    objects as their own properties in the order `Object.keys` reports them. */
module Json {
  import opened Wrappers

  /** A JSON value; numbers are approximated by integers, arrays and nested objects by `Compound`. */
  datatype Value = Str(s: string) | Bool(b: bool) | Num(n: int) | Null | Compound

  /** JavaScript truthiness (`!v` is its negation; a missing property is falsy as well). */
  predicate Truthy(v: Value) {
    match v
    case Str(s) => s != ""
    case Bool(b) => b
    case Num(n) => n != 0
    case Null => false
    case Compound => true
  }

  /** An object: property names with their values, in the order `Object.keys` lists them (array
      indices such as "0" or "42" first and ascending, then the other names in insertion order).
      A parsed object holds each name once; should a list repeat one, `Get` reads the first. */
  type Object<V> = seq<(string, V)>

  /** `Object.keys` (see `KeysSpec`). */
  function Keys<V>(o: Object<V>): (ks: seq<string>)
    ensures |ks| == |o|
  {
    if o == [] then [] else [o[0].0] + Keys(o[1..])
  }

  /** The keys are the property names, one per property and in the same order. */
  lemma {:induction false} KeysSpec<V>(o: Object<V>)
    ensures forall i :: 0 <= i < |o| ==> Keys(o)[i] == o[i].0
  {
    if o != [] {
      KeysSpec(o[1..]);
      assert Keys(o) == [o[0].0] + Keys(o[1..]);
    }
  }

  /** Property access `o[k]`, with `None` for undefined. */
  function Get<V>(o: Object<V>, k: string): (r: Option<V>)
    ensures r.None? <==> k !in Keys(o)
    ensures r.Some? ==> (k, r.value) in o
  {
    if o == [] then None
    else if o[0].0 == k then Some(o[0].1)
    else Get(o[1..], k)
  }

  /** Property assignment `o[k] = v`: that property reads `v` afterwards, and no other changes
      (see `PutKeys` for where it goes). */
  function Put<V>(o: Object<V>, k: string, v: V): (r: Object<V>)
    ensures Get(r, k) == Some(v)
    ensures forall k' :: k' != k ==> Get(r, k') == Get(o, k')
  {
    if o == [] then [(k, v)]
    else if o[0].0 == k then
      var r := [(k, v)] + o[1..];
      assert r[1..] == o[1..];
      r
    else
      var r := [o[0]] + Put(o[1..], k, v);
      assert r[1..] == Put(o[1..], k, v);
      r
  }

  /** An existing property keeps its place; a new one goes last, which is where JavaScript puts a
      new name that is not an array index. */
  lemma {:induction false} PutKeys<V>(o: Object<V>, k: string, v: V)
    ensures Keys(Put(o, k, v)) == if k in Keys(o) then Keys(o) else Keys(o) + [k]
  {
    if o != [] {
      var r := Put(o, k, v);
      assert Keys(o) == [o[0].0] + Keys(o[1..]);
      if o[0].0 == k {
        assert r == [(k, v)] + o[1..];
        assert r[1..] == o[1..];
        assert Keys(r) == [k] + Keys(o[1..]);
      } else {
        PutKeys(o[1..], k, v);
        var rest := Put(o[1..], k, v);
        assert r == [o[0]] + rest;
        assert r[1..] == rest;
        assert Keys(r) == [o[0].0] + Keys(rest);
      }
    }
  }
}
