/** A style object: an ordered set of key/value properties, as a JavaScript
    object holds them. The order matters because the exports walk
    `Object.entries`, which lists properties in insertion order. */
module Styles {
  import opened Values

  datatype Entry = Entry(key: string, value: Value)

  type StyleObject = seq<Entry>

  /** Every JavaScript object has distinct property names. */
  predicate DistinctKeys(st: StyleObject)
  {
    forall i, j :: 0 <= i < j < |st| ==> st[i].key != st[j].key
  }

  /** Property read `st[k]`; `None` is `undefined`. */
  function Get(st: StyleObject, k: string): (r: Option<Value>)
    ensures r.Some? ==> Entry(k, r.value) in st
    ensures r.None? <==> forall i :: 0 <= i < |st| ==> st[i].key != k
  {
    if st == [] then None
    else if st[0].key == k then Some(st[0].value)
    else Get(st[1..], k)
  }

  predicate HasKey(st: StyleObject, k: string)
  {
    Get(st, k).Some?
  }

  /** In an object with distinct keys, reading a key yields its one entry. */
  lemma {:induction false} GetAt(st: StyleObject, i: nat)
    requires DistinctKeys(st) && i < |st|
    ensures Get(st, st[i].key) == Some(st[i].value)
  {
    if i > 0 {
      assert st[1..][i - 1] == st[i];
      GetAt(st[1..], i - 1);
    }
  }

  /** A cheap witness that two keys differ: their lengths or their first
      characters. */
  predicate KeysDiffer(a: string, b: string)
  {
    |a| != |b| || (a != [] && b != [] && a[0] != b[0])
  }

  /** A key that differs from every key of the object is missing from it. */
  lemma GetMissing(st: StyleObject, k: string)
    requires forall i :: 0 <= i < |st| ==> KeysDiffer(st[i].key, k)
    ensures Get(st, k).None?
  {
  }

  /** Reading stops at the first entry carrying the key. */
  lemma {:induction false} GetFirst(st: StyleObject, i: nat, k: string)
    requires i < |st| && st[i].key == k
    requires forall j :: 0 <= j < i ==> KeysDiffer(st[j].key, k)
    ensures Get(st, k) == Some(st[i].value)
  {
    if i > 0 {
      assert st[1..][i - 1] == st[i];
      GetFirst(st[1..], i - 1, k);
    }
  }

  /** Property write `st[k] = v`: an existing property keeps its place and
      takes the new value; a new property goes at the end. */
  function Put(st: StyleObject, k: string, v: Value): (r: StyleObject)
    ensures |r| == if HasKey(st, k) then |st| else |st| + 1
    ensures forall i :: 0 <= i < |st| ==> r[i].key == st[i].key
    ensures !HasKey(st, k) ==> r[|st|] == Entry(k, v)
  {
    if st == [] then [Entry(k, v)]
    else if st[0].key == k then [Entry(k, v)] + st[1..]
    else [st[0]] + Put(st[1..], k, v)
  }

  lemma {:induction false} PutLookup(st: StyleObject, k: string, v: Value)
    ensures Get(Put(st, k, v), k) == Some(v)
    ensures forall k' :: k' != k ==> Get(Put(st, k, v), k') == Get(st, k')
  {
    if st != [] && st[0].key != k {
      PutLookup(st[1..], k, v);
      var r := Put(st, k, v);
      assert r[1..] == Put(st[1..], k, v);
    }
  }

  lemma PutKeepsDistinct(st: StyleObject, k: string, v: Value)
    requires DistinctKeys(st)
    ensures DistinctKeys(Put(st, k, v))
  {
  }

  lemma {:induction false} PutFresh(st: StyleObject, k: string, v: Value)
    requires !HasKey(st, k)
    ensures Put(st, k, v) == st + [Entry(k, v)]
  {
    if st != [] {
      PutFresh(st[1..], k, v);
    }
  }

  /** Copies the properties of `source`, in order, onto `target`: the effect
      of `...source` inside an object literal built on `target`. */
  function Assign(target: StyleObject, source: StyleObject): (r: StyleObject)
    ensures |r| >= |target| && forall i :: 0 <= i < |target| ==> r[i].key == target[i].key
    decreases |source|
  {
    if source == [] then target
    else Assign(Put(target, source[0].key, source[0].value), source[1..])
  }

  lemma {:induction false} AssignKeepsDistinct(target: StyleObject, source: StyleObject)
    requires DistinctKeys(target)
    ensures DistinctKeys(Assign(target, source))
    decreases |source|
  {
    if source != [] {
      PutKeepsDistinct(target, source[0].key, source[0].value);
      AssignKeepsDistinct(Put(target, source[0].key, source[0].value), source[1..]);
    }
  }

  /** After copying `source` onto `target`, keys of `source` read the
      source's value and every other key reads the target's. */
  lemma {:induction false} AssignLookup(target: StyleObject, source: StyleObject, k: string)
    requires DistinctKeys(source)
    ensures Get(Assign(target, source), k)
         == if HasKey(source, k) then Get(source, k) else Get(target, k)
    decreases |source|
  {
    if source != [] {
      var e := source[0];
      var t' := Put(target, e.key, e.value);
      AssignLookup(t', source[1..], k);
      PutLookup(target, e.key, e.value);
      if k == e.key {
        assert !HasKey(source[1..], k);
      }
    }
  }

  /** The object literal `{...base, ...update}`: over a base with distinct
      keys, the base's properties stay at the front in their order, and an
      empty update copies the base. */
  function Spread(base: StyleObject, update: StyleObject): (r: StyleObject)
    ensures DistinctKeys(base) ==> |r| >= |base| && forall i :: 0 <= i < |base| ==> r[i].key == base[i].key
    ensures DistinctKeys(base) && update == [] ==> r == base
  {
    if DistinctKeys(base) then SpreadIntoEmpty(base); Assign(Assign([], base), update)
    else Assign(Assign([], base), update)
  }

  /** Appending properties whose names are new is plain concatenation. */
  lemma {:induction false} AssignFresh(target: StyleObject, source: StyleObject)
    requires DistinctKeys(target + source)
    ensures Assign(target, source) == target + source
    decreases |source|
  {
    if source != [] {
      var e := source[0];
      assert (target + source)[|target|] == e;
      assert !HasKey(target, e.key) by {
        forall i | 0 <= i < |target|
          ensures target[i].key != e.key
        {
          assert (target + source)[i] == target[i];
        }
      }
      PutFresh(target, e.key, e.value);
      assert target + [e] + source[1..] == target + source;
      AssignFresh(target + [e], source[1..]);
    }
  }

  /** Spreading an object into an empty literal copies it exactly. */
  lemma SpreadIntoEmpty(st: StyleObject)
    requires DistinctKeys(st)
    ensures Assign([], st) == st
  {
    assert [] + st == st;
    AssignFresh([], st);
  }

  /** The key-to-value view of a style object, forgetting property order. */
  function View(st: StyleObject): (m: map<string, Value>)
    ensures forall k :: k in m <==> HasKey(st, k)
    ensures forall k :: k in m ==> Get(st, k) == Some(m[k])
  {
    map k | k in (set e | e in st :: e.key) :: Get(st, k).value
  }

  /** Two objects have the same view exactly when every read agrees. */
  lemma ViewEqual(a: StyleObject, b: StyleObject)
    requires forall k :: Get(a, k) == Get(b, k)
    ensures View(a) == View(b)
  {
  }

  /** `{...s, ...u}` on objects with distinct keys: keys of `u` take the
      update's value, every other key keeps the base's value, and the base's
      properties keep their order at the front. */
  lemma SpreadLookup(base: StyleObject, update: StyleObject)
    requires DistinctKeys(base) && DistinctKeys(update)
    ensures forall k :: Get(Spread(base, update), k)
                     == (if HasKey(update, k) then Get(update, k) else Get(base, k))
    ensures DistinctKeys(Spread(base, update))
    ensures |Spread(base, update)| >= |base|
    ensures forall i :: 0 <= i < |base| ==> Spread(base, update)[i].key == base[i].key
  {
    SpreadIntoEmpty(base);
    AssignKeepsDistinct(base, update);
    forall k
      ensures Get(Spread(base, update), k)
           == (if HasKey(update, k) then Get(update, k) else Get(base, k))
    {
      AssignLookup(base, update, k);
    }
  }

  /** Two successive updates that mention disjoint keys reach the same
      key-to-value view in either order. */
  lemma SpreadCommutesOnDisjointKeys(s: StyleObject, u1: StyleObject, u2: StyleObject)
    requires DistinctKeys(s) && DistinctKeys(u1) && DistinctKeys(u2)
    requires forall k :: !(HasKey(u1, k) && HasKey(u2, k))
    ensures View(Spread(Spread(s, u1), u2)) == View(Spread(Spread(s, u2), u1))
  {
    SpreadLookup(s, u1);
    SpreadLookup(s, u2);
    SpreadLookup(Spread(s, u1), u2);
    SpreadLookup(Spread(s, u2), u1);
    ViewEqual(Spread(Spread(s, u1), u2), Spread(Spread(s, u2), u1));
  }

  /** `{...s, k: v}` for a key `s` lacks appends the property at the end. */
  lemma SpreadFreshKey(s: StyleObject, k: string, v: Value)
    requires DistinctKeys(s) && !HasKey(s, k)
    ensures Spread(s, [Entry(k, v)]) == s + [Entry(k, v)]
    ensures DistinctKeys(s + [Entry(k, v)])
  {
    SpreadIntoEmpty(s);
    assert Assign(s, [Entry(k, v)]) == Assign(Put(s, k, v), []);
    PutFresh(s, k, v);
    PutKeepsDistinct(s, k, v);
  }

  /** The commutation holds for the view only: two one-key updates that add
      new keys append them in the order the updates arrive, so applying them
      in the opposite order gives the keys in the opposite order. */
  lemma SpreadOrderDependsOnUpdateOrder(s: StyleObject, k1: string, v1: Value, k2: string, v2: Value)
    requires DistinctKeys(s) && k1 != k2 && !HasKey(s, k1) && !HasKey(s, k2)
    ensures Spread(Spread(s, [Entry(k1, v1)]), [Entry(k2, v2)]) == s + [Entry(k1, v1), Entry(k2, v2)]
    ensures Spread(Spread(s, [Entry(k2, v2)]), [Entry(k1, v1)]) == s + [Entry(k2, v2), Entry(k1, v1)]
    ensures Spread(Spread(s, [Entry(k1, v1)]), [Entry(k2, v2)])
         != Spread(Spread(s, [Entry(k2, v2)]), [Entry(k1, v1)])
  {
    SpreadOrderOneWay(s, k1, v1, k2, v2);
    SpreadOrderOneWay(s, k2, v2, k1, v1);
    assert (s + [Entry(k1, v1), Entry(k2, v2)])[|s|].key == k1;
    assert (s + [Entry(k2, v2), Entry(k1, v1)])[|s|].key == k2;
  }

  lemma SpreadOrderOneWay(s: StyleObject, k1: string, v1: Value, k2: string, v2: Value)
    requires DistinctKeys(s) && k1 != k2 && !HasKey(s, k1) && !HasKey(s, k2)
    ensures Spread(Spread(s, [Entry(k1, v1)]), [Entry(k2, v2)]) == s + [Entry(k1, v1), Entry(k2, v2)]
  {
    SpreadFreshKey(s, k1, v1);
    var s1 := s + [Entry(k1, v1)];
    assert !HasKey(s1, k2) by {
      assert forall i :: 0 <= i < |s1| ==> s1[i].key != k2 by {
        forall i | 0 <= i < |s1| ensures s1[i].key != k2 {
          if i < |s| { assert s1[i] == s[i]; }
        }
      }
    }
    SpreadFreshKey(s1, k2, v2);
    assert s1 + [Entry(k2, v2)] == s + [Entry(k1, v1), Entry(k2, v2)];
  }
}
