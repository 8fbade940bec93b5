/** JavaScript plain objects with string keys that are not array indices
    (such as the feed's date keys), as the pages use them: the keys keep
    their insertion order, `Object.values` lists the values in that order,
    and `{...a, ...b}` copies `a`'s properties and then `b`'s, so that a key
    of `b` already present keeps its place but takes `b`'s value. */
module ObjectSpread {

  datatype Entry<V> = Entry(key: string, value: V)

  /** An object as its own properties in insertion order. */
  type Obj<V> = seq<Entry<V>>

  function Keys<V>(o: Obj<V>): (ks: seq<string>)
    ensures |ks| == |o|
    ensures forall i :: 0 <= i < |o| ==> ks[i] == o[i].key
  {
    if o == [] then [] else [o[0].key] + Keys(o[1..])
  }

  /** `Object.values(o)`. */
  function Values<V>(o: Obj<V>): (vs: seq<V>)
    ensures |vs| == |o|
    ensures forall i :: 0 <= i < |o| ==> vs[i] == o[i].value
  {
    if o == [] then [] else [o[0].value] + Values(o[1..])
  }

  predicate NoDuplicates(ks: seq<string>) {
    forall i, j :: 0 <= i < j < |ks| ==> ks[i] != ks[j]
  }

  predicate DistinctKeys<V>(o: Obj<V>) {
    NoDuplicates(Keys(o))
  }

  /** The object as a finite map from key to value; on a repeated key the
      later entry wins, as in an object literal. */
  function ToMap<V>(o: Obj<V>): (m: map<string, V>)
    ensures forall k :: k in m <==> k in Keys(o)
  {
    if o == [] then map[] else map[o[0].key := o[0].value] + ToMap(o[1..])
  }

  /** The `[[Set]]` of one property: an existing key is overwritten where it
      stands, a new key is appended. */
  function Put<V>(o: Obj<V>, k: string, v: V): Obj<V> {
    if o == [] then [Entry(k, v)]
    else if o[0].key == k then [Entry(k, v)] + o[1..]
    else [o[0]] + Put(o[1..], k, v)
  }

  /** `{...target, ...source}` seen from `target`: `source`'s properties are
      set one after the other, in order. */
  function SpreadInto<V>(target: Obj<V>, source: Obj<V>): Obj<V>
    decreases |source|
  {
    if source == [] then target
    else SpreadInto(Put(target, source[0].key, source[0].value), source[1..])
  }

  /** The object literal `{...a, ...b}`: the right-biased union of the two
      objects, with `a`'s keys in their order followed by `b`'s new keys in
      theirs. */
  function Spread<V>(a: Obj<V>, b: Obj<V>): (r: Obj<V>)
    requires DistinctKeys(a) && DistinctKeys(b)
    ensures DistinctKeys(r)
    ensures ToMap(r) == ToMap(a) + ToMap(b)
    ensures Keys(r) == Keys(a) + Missing(Keys(b), Keys(a))
  {
    SpreadCopy(a);
    SpreadIntoDistinct(a, b);
    SpreadIntoMap(a, b);
    SpreadIntoKeys(a, b);
    SpreadInto(SpreadInto([], a), b)
  }

  /** The keys of `ks` that are not in `present`, in order. */
  function Missing(ks: seq<string>, present: seq<string>): (r: seq<string>)
    ensures forall k :: k in r <==> k in ks && k !in present
  {
    if ks == [] then []
    else if ks[0] in present then Missing(ks[1..], present)
    else [ks[0]] + Missing(ks[1..], present)
  }

  lemma KeysAppend<V>(a: Obj<V>, b: Obj<V>)
    ensures Keys(a + b) == Keys(a) + Keys(b)
  {
  }

  /** Setting a property never reorders the existing keys; a new key goes
      to the end. */
  lemma {:induction false} PutKeys<V>(o: Obj<V>, k: string, v: V)
    ensures Keys(Put(o, k, v)) == if k in Keys(o) then Keys(o) else Keys(o) + [k]
  {
    if o == [] {
    } else if o[0].key == k {
      assert Keys(Put(o, k, v)) == [k] + Keys(o[1..]);
    } else {
      PutKeys(o[1..], k, v);
      assert Keys(Put(o, k, v)) == [o[0].key] + Keys(Put(o[1..], k, v));
      assert Keys(o) == [o[0].key] + Keys(o[1..]);
    }
  }

  lemma PutDistinct<V>(o: Obj<V>, k: string, v: V)
    requires DistinctKeys(o)
    ensures DistinctKeys(Put(o, k, v))
  {
    PutKeys(o, k, v);
  }

  lemma AppendAssoc<T>(a: seq<T>, b: seq<T>, c: seq<T>)
    ensures a + b + c == a + (b + c)
  {
  }

  lemma OverwriteFirst<V>(k: string, a: V, v: V, rest: map<string, V>)
    requires k !in rest
    ensures map[k := v] + rest == (map[k := a] + rest)[k := v]
  {
  }

  lemma UpdateBehind<V>(k0: string, a: V, k: string, v: V, rest: map<string, V>)
    requires k != k0
    ensures map[k0 := a] + rest[k := v] == (map[k0 := a] + rest)[k := v]
  {
  }

  lemma UpdateThenUnion<V>(t: map<string, V>, k: string, v: V, rest: map<string, V>)
    ensures t[k := v] + rest == t + (map[k := v] + rest)
  {
  }

  /** On an object whose keys are distinct, setting `k` is a map update. */
  lemma {:induction false} PutMap<V>(o: Obj<V>, k: string, v: V)
    requires DistinctKeys(o)
    ensures ToMap(Put(o, k, v)) == ToMap(o)[k := v]
  {
    if o == [] {
    } else if o[0].key == k {
      var rest := ToMap(o[1..]);
      assert Keys(o) == [k] + Keys(o[1..]);
      assert k !in rest;
      assert ToMap(Put(o, k, v)) == map[k := v] + rest;
      OverwriteFirst(k, o[0].value, v, rest);
    } else {
      assert Keys(o[1..]) == Keys(o)[1..];
      PutMap(o[1..], k, v);
      assert ToMap(Put(o, k, v)) == map[o[0].key := o[0].value] + ToMap(Put(o[1..], k, v));
      UpdateBehind(o[0].key, o[0].value, k, v, ToMap(o[1..]));
    }
  }

  /** Setting a key the object does not have appends it. */
  lemma {:induction false} PutAppends<V>(o: Obj<V>, k: string, v: V)
    requires k !in Keys(o)
    ensures Put(o, k, v) == o + [Entry(k, v)]
  {
    if o != [] {
      assert Keys(o) == [o[0].key] + Keys(o[1..]);
      PutAppends(o[1..], k, v);
      assert o == [o[0]] + o[1..];
    }
  }

  lemma {:induction false} SpreadIntoDistinct<V>(t: Obj<V>, s: Obj<V>)
    requires DistinctKeys(t)
    ensures DistinctKeys(SpreadInto(t, s))
    decreases |s|
  {
    if s != [] {
      PutDistinct(t, s[0].key, s[0].value);
      SpreadIntoDistinct(Put(t, s[0].key, s[0].value), s[1..]);
    }
  }

  /** Spreading is the right-biased map union: a key of `s` takes `s`'s
      value, any other key keeps `t`'s. */
  lemma {:induction false} SpreadIntoMap<V>(t: Obj<V>, s: Obj<V>)
    requires DistinctKeys(t)
    ensures ToMap(SpreadInto(t, s)) == ToMap(t) + ToMap(s)
    decreases |s|
  {
    if s == [] {
      assert ToMap(t) + map[] == ToMap(t);
    } else {
      var t' := Put(t, s[0].key, s[0].value);
      PutMap(t, s[0].key, s[0].value);
      PutDistinct(t, s[0].key, s[0].value);
      SpreadIntoMap(t', s[1..]);
      assert ToMap(s) == map[s[0].key := s[0].value] + ToMap(s[1..]);
      UpdateThenUnion(ToMap(t), s[0].key, s[0].value, ToMap(s[1..]));
    }
  }

  lemma {:induction false} MissingIgnores(ks: seq<string>, present: seq<string>, x: string)
    requires x !in ks
    ensures Missing(ks, present + [x]) == Missing(ks, present)
  {
    if ks != [] {
      MissingIgnores(ks[1..], present, x);
    }
  }

  /** Spreading keeps the target's keys in place and appends the source's
      new keys in the source's order. */
  lemma {:induction false} SpreadIntoKeys<V>(t: Obj<V>, s: Obj<V>)
    requires DistinctKeys(s)
    ensures Keys(SpreadInto(t, s)) == Keys(t) + Missing(Keys(s), Keys(t))
    decreases |s|
  {
    if s == [] {
      assert Keys(t) + [] == Keys(t);
    } else {
      var k := s[0].key;
      var t' := Put(t, k, s[0].value);
      var ks := Keys(s[1..]);
      assert Keys(s) == [k] + ks;
      assert ks == Keys(s)[1..];
      assert k !in ks;
      SpreadIntoKeys(t', s[1..]);
      PutKeys(t, k, s[0].value);
      if k in Keys(t) {
        assert Missing(Keys(s), Keys(t)) == Missing(ks, Keys(t));
      } else {
        MissingIgnores(ks, Keys(t), k);
        assert Missing(Keys(s), Keys(t)) == [k] + Missing(ks, Keys(t));
        AppendAssoc(Keys(t), [k], Missing(ks, Keys(t)));
      }
    }
  }

  /** Spreading a source whose keys are all new is plain concatenation. */
  lemma {:induction false} SpreadIntoFresh<V>(t: Obj<V>, s: Obj<V>)
    requires DistinctKeys(s)
    requires forall k :: k in Keys(s) ==> k !in Keys(t)
    ensures SpreadInto(t, s) == t + s
    decreases |s|
  {
    if s != [] {
      var e, rest := s[0], s[1..];
      assert Keys(s) == [e.key] + Keys(rest);
      assert Keys(rest) == Keys(s)[1..];
      assert e.key !in Keys(t);
      PutAppends(t, e.key, e.value);
      KeysAppend(t, [e]);
      assert Keys(t + [e]) == Keys(t) + [e.key];
      SpreadIntoFresh(t + [e], rest);
      assert s == [e] + rest;
      AppendAssoc(t, [e], rest);
    }
  }

  /** `{...a}` is a copy of `a`. */
  lemma SpreadCopy<V>(a: Obj<V>)
    requires DistinctKeys(a)
    ensures SpreadInto([], a) == a
  {
    SpreadIntoFresh([], a);
  }
}
