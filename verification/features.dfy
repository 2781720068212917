/**
 * Drop-off points of the map component and the `pointHopper` object that
 * indexes them: a plain JavaScript object used as a dictionary from the
 * random key of a drop-off to the drop-off itself.
 */
module Features {

  /** A `[lng, lat]` position. The planner never looks inside one. */
  datatype Coord = LngLat(lng: real, lat: real)

  /** A value of `Math.random()`, which always lies in [0, 1). */
  type Key = r: real | 0.0 <= r < 1.0

  /** The GeoJSON point that `newDropoff` builds, with its `orderTime` and `key` properties. */
  datatype Feature = Point(coords: Coord, orderTime: int, key: Key)

  /** A value that may be JavaScript's `undefined`. */
  datatype Option<T> = None | Some(value: T)

  predicate Distinct<T(==)>(s: seq<T>)
  {
    forall i, j :: 0 <= i < j < |s| ==> s[i] != s[j]
  }

  /**
   * A JavaScript object holding features: its own property keys in the order
   * in which they were first assigned, and the value stored under each key.
   */
  datatype Hopper = Hopper(inserted: seq<Key>, props: map<Key, Feature>)
  {
    ghost predicate Valid()
    {
      && Distinct(inserted)
      && (forall k :: k in props <==> k in inserted)
    }
  }

  /** The object literal `{}`. */
  const EmptyHopper: Hopper := Hopper([], map[])

  /**
   * `o[k] = v`: the value under `k` becomes `v` and every other property is
   * kept; a key that is new takes the last place in the insertion order, a
   * key that exists keeps its place.
   */
  function Assign(o: Hopper, k: Key, v: Feature): (r: Hopper)
    requires o.Valid()
    ensures r.Valid()
  {
    Hopper(if k in o.props then o.inserted else o.inserted + [k], o.props[k := v])
  }

  /**
   * The one key in [0, 1) whose string form ("0") is a canonical array
   * index; `Object.keys` lists such keys before all others.
   */
  const IndexKey: Key := 0.0

  /** `ks` with every occurrence of `x` dropped, the rest in order. */
  function Without(ks: seq<Key>, x: Key): (r: seq<Key>)
    ensures forall k :: k in r <==> k in ks && k != x
    ensures Distinct(ks) ==> Distinct(r)
    ensures x !in ks ==> r == ks
    ensures Distinct(ks) && x in ks ==> |r| == |ks| - 1
  {
    if ks == [] then []
    else if ks[0] == x then Without(ks[1..], x)
    else
      var rest := Without(ks[1..], x);
      assert Distinct(ks) ==> ks[0] !in rest && Distinct(ks[1..]);
      [ks[0]] + rest
  }

  /**
   * `Object.keys(o)`: the array-index key first (when present), then the
   * other keys in insertion order.
   */
  function ObjectKeys(o: Hopper): (r: seq<Key>)
    requires o.Valid()
    ensures forall k :: k in r ==> k in o.props
    ensures |r| == |o.inserted|
  {
    if IndexKey in o.inserted then [IndexKey] + Without(o.inserted, IndexKey) else o.inserted
  }

  /** `Object.keys` lists every own key exactly once. */
  lemma ObjectKeysSpec(o: Hopper)
    requires o.Valid()
    ensures Distinct(ObjectKeys(o))
    ensures forall k :: k in ObjectKeys(o) <==> k in o.props
  {
  }

  /** `ks.map(k => m[k])`. */
  function ValuesAt(ks: seq<Key>, m: map<Key, Feature>): (r: seq<Feature>)
    requires forall k :: k in ks ==> k in m
    ensures |r| == |ks|
    ensures forall i :: 0 <= i < |ks| ==> r[i] == m[ks[i]]
  {
    if ks == [] then [] else [m[ks[0]]] + ValuesAt(ks[1..], m)
  }

  function Elements<T>(s: seq<T>): set<T>
  {
    set x | x in s
  }

  lemma {:induction false} DistinctCardinality<T>(s: seq<T>)
    requires Distinct(s)
    ensures |Elements(s)| == |s|
  {
    if s != [] {
      DistinctCardinality(s[1..]);
      assert Elements(s) == {s[0]} + Elements(s[1..]);
      assert s[0] !in Elements(s[1..]);
    }
  }

  lemma {:induction false} ElementsBound<T>(s: seq<T>)
    ensures |Elements(s)| <= |s|
  {
    if s != [] {
      ElementsBound(s[1..]);
      assert Elements(s) == {s[0]} + Elements(s[1..]);
    }
  }

  /** A sequence without repeats, all of whose elements occur in `t`, is no longer than `t`. */
  lemma DistinctWithin<T>(s: seq<T>, t: seq<T>)
    requires Distinct(s)
    requires forall x :: x in s ==> x in t
    ensures |s| <= |t|
  {
    DistinctCardinality(s);
    ElementsBound(t);
    var inner, outer := Elements(s), Elements(t);
    assert outer == inner + (outer - inner);
    assert inner * (outer - inner) == {};
  }

  /** A well-formed object has exactly one key per entry of its insertion order. */
  lemma KeyCount(o: Hopper)
    requires o.Valid()
    ensures |o.props| == |o.inserted|
  {
    DistinctCardinality(o.inserted);
    assert o.props.Keys == Elements(o.inserted);
  }

  /**
   * `objectToArray(obj)`: one value per own key of `obj`, in `Object.keys`
   * order, and every stored value among them.
   */
  function ObjectToArray(o: Hopper): (r: seq<Feature>)
    requires o.Valid()
    ensures |r| == |ObjectKeys(o)| == |o.props|
    ensures forall i :: 0 <= i < |r| ==> r[i] == o.props[ObjectKeys(o)[i]]
  {
    KeyCount(o);
    ValuesAt(ObjectKeys(o), o.props)
  }

  /** Every stored value appears in `objectToArray`'s result, at its key's position. */
  lemma ObjectToArrayCovers(o: Hopper, k: Key)
    requires o.Valid() && k in o.props
    ensures exists i :: 0 <= i < |ObjectToArray(o)| && ObjectKeys(o)[i] == k && ObjectToArray(o)[i] == o.props[k]
  {
    ObjectKeysSpec(o);
    var i :| 0 <= i < |ObjectKeys(o)| && ObjectKeys(o)[i] == k;
    assert ObjectToArray(o)[i] == o.props[k];
  }

  lemma {:induction false} WithoutAppend(ks: seq<Key>, x: Key, k: Key)
    ensures Without(ks + [k], x) == Without(ks, x) + (if k == x then [] else [k])
  {
    if ks == [] {
      assert ks + [k] == [k];
    } else {
      assert (ks + [k])[1..] == ks[1..] + [k];
      WithoutAppend(ks[1..], x, k);
    }
  }

  /** Where a newly assigned key lands in `Object.keys`. */
  lemma ObjectKeysAfterAssign(o: Hopper, k: Key, v: Feature)
    requires o.Valid() && k !in o.props
    ensures ObjectKeys(Assign(o, k, v)) == if k == IndexKey then [k] + ObjectKeys(o) else ObjectKeys(o) + [k]
  {
    WithoutAppend(o.inserted, IndexKey, k);
  }

  /** Two maps that agree on `ks` give the same values for `ks`. */
  lemma {:induction false} ValuesAtAgree(ks: seq<Key>, m: map<Key, Feature>, m': map<Key, Feature>)
    requires forall j :: j in ks ==> j in m && j in m' && m'[j] == m[j]
    ensures ValuesAt(ks, m') == ValuesAt(ks, m)
  {
    if ks != [] {
      ValuesAtAgree(ks[1..], m, m');
    }
  }

  lemma {:induction false} ValuesAtAppend(ks: seq<Key>, k: Key, m: map<Key, Feature>)
    requires forall j :: j in ks ==> j in m
    requires k in m
    ensures ValuesAt(ks + [k], m) == ValuesAt(ks, m) + [m[k]]
  {
    if ks == [] {
      assert ks + [k] == [k];
    } else {
      assert (ks + [k])[1..] == ks[1..] + [k];
      ValuesAtAppend(ks[1..], k, m);
    }
  }

  /** A fresh key other than the array-index key: its value goes to the end. */
  lemma ObjectToArrayAfterAppend(o: Hopper, k: Key, v: Feature)
    requires o.Valid() && k !in o.props && k != IndexKey
    ensures ObjectToArray(Assign(o, k, v)) == ObjectToArray(o) + [v]
  {
    var o' := Assign(o, k, v);
    var ks := ObjectKeys(o);
    ObjectKeysAfterAssign(o, k, v);
    ValuesAtAppend(ks, k, o'.props);
    ValuesAtAgree(ks, o.props, o'.props);
  }

  /** The fresh array-index key: its value goes to the front. */
  lemma ObjectToArrayAfterIndexKey(o: Hopper, v: Feature)
    requires o.Valid() && IndexKey !in o.props
    ensures ObjectToArray(Assign(o, IndexKey, v)) == [v] + ObjectToArray(o)
  {
    var o' := Assign(o, IndexKey, v);
    var ks := ObjectKeys(o);
    ObjectKeysAfterAssign(o, IndexKey, v);
    assert ([IndexKey] + ks)[1..] == ks;
    ValuesAtAgree(ks, o.props, o'.props);
  }

  /** An existing key: the list keeps its length and only that key's value changes. */
  lemma ObjectToArrayAfterOverwrite(o: Hopper, k: Key, v: Feature)
    requires o.Valid() && k in o.props
    ensures var before, after := ObjectToArray(o), ObjectToArray(Assign(o, k, v));
      && |after| == |before|
      && forall i :: 0 <= i < |before| ==> after[i] == if ObjectKeys(o)[i] == k then v else before[i]
  {
    assert Assign(o, k, v).inserted == o.inserted;
  }
}
