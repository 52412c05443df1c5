/** Named layouts: the list kept under the `savedLayouts` storage key, looked
    up by exact, case-sensitive name, written with last-write-wins per name. */
module Persistence {
  import opened Values
  import opened Canvas

  datatype SavedLayout = SavedLayout(name: string, components: seq<Component>, savedAt: string)

  type Store = seq<SavedLayout>

  function Names(store: Store): seq<string>
  {
    seq(|store|, i requires 0 <= i < |store| => store[i].name)
  }

  predicate HasName(store: Store, name: string)
  {
    exists j :: 0 <= j < |store| && store[j].name == name
  }

  /** How many stored layouts carry `name`. */
  function CountNamed(store: Store, name: string): nat
  {
    multiset(Names(store))[name]
  }

  predicate DistinctNames(store: Store)
  {
    forall i, j :: 0 <= i < j < |store| ==> store[i].name != store[j].name
  }

  /** `findIndex(layout => layout.name === name)`: the first index carrying
      the name, or -1 when there is none. */
  function FindIndex(store: Store, name: string): (r: int)
    ensures -1 <= r < |store|
    ensures r >= 0 ==> store[r].name == name
    ensures r >= 0 ==> forall j :: 0 <= j < r ==> store[j].name != name
    ensures r == -1 <==> forall j :: 0 <= j < |store| ==> store[j].name != name
  {
    if store == [] then -1
    else if store[0].name == name then 0
    else
      var r := FindIndex(store[1..], name);
      if r == -1 then -1 else r + 1
  }

  /** `find(layout => layout.name === name)`. */
  function Find(store: Store, name: string): (r: Option<SavedLayout>)
    ensures r.Some? ==> r.value.name == name && r.value in store
    ensures r.None? <==> !HasName(store, name)
    ensures r.Some? ==> exists i :: 0 <= i < |store| && store[i] == r.value
                                    && forall j :: 0 <= j < i ==> store[j].name != name
  {
    var i := FindIndex(store, name);
    if i >= 0 then Some(store[i]) else None
  }

  /** The store update of a save: the first layout with the same name is
      replaced where it stands, otherwise the new layout is appended. */
  function Upsert(store: Store, layout: SavedLayout): (r: Store)
    ensures HasName(store, layout.name) ==> |r| == |store|
    ensures !HasName(store, layout.name) ==> |r| == |store| + 1 && r[|store|] == layout
    ensures forall j :: 0 <= j < |store| ==> r[j].name == store[j].name
    ensures forall j :: 0 <= j < |store| && store[j].name != layout.name ==> r[j] == store[j]
    ensures HasName(store, layout.name) ==>
      exists i :: 0 <= i < |store| && store[i].name == layout.name && r == store[i := layout]
                  && forall j :: 0 <= j < i ==> store[j].name != layout.name
    ensures !HasName(store, layout.name) ==> r == store + [layout]
  {
    var i := FindIndex(store, layout.name);
    if i >= 0 then store[i := layout] else store + [layout]
  }

  /** After a save, looking the name up yields exactly the saved layout. */
  lemma UpsertThenFind(store: Store, layout: SavedLayout)
    ensures Find(Upsert(store, layout), layout.name) == Some(layout)
  {
    var r := Upsert(store, layout);
    var i := FindIndex(store, layout.name);
    assert Names(r)[if i >= 0 then i else |store|] == layout.name;
    assert FindIndex(r, layout.name) == (if i >= 0 then i else |store|);
  }

  /** A save never changes what another name looks up to. */
  lemma UpsertKeepsOtherNames(store: Store, layout: SavedLayout, name: string)
    requires name != layout.name
    ensures Find(Upsert(store, layout), name) == Find(store, name)
  {
    var r := Upsert(store, layout);
    var i := FindIndex(store, name);
    var i' := FindIndex(r, name);
    if i >= 0 {
      assert r[i].name == name;
    }
    if i' >= 0 && i' < |store| {
      assert store[i'].name == name;
    }
  }

  /** The number of layouts named like the saved one becomes one if it was
      zero and otherwise stays as it was; other counts do not move. */
  lemma UpsertCount(store: Store, layout: SavedLayout, name: string)
    ensures CountNamed(Upsert(store, layout), name)
         == if name != layout.name then CountNamed(store, name)
            else if CountNamed(store, name) == 0 then 1
            else CountNamed(store, name)
  {
    var r := Upsert(store, layout);
    var i := FindIndex(store, layout.name);
    if i >= 0 {
      assert Names(r) == Names(store)[i := layout.name];
    } else {
      assert Names(r) == Names(store) + [layout.name];
      assert layout.name !in Names(store) by {
        assert forall j :: 0 <= j < |store| ==> Names(store)[j] == store[j].name;
      }
    }
  }

  /** Saving twice under one name is the same as saving the second layout
      once: one entry, the second content, at the original index. */
  lemma UpsertTwice(store: Store, first: SavedLayout, second: SavedLayout)
    requires first.name == second.name
    ensures Upsert(Upsert(store, first), second) == Upsert(store, second)
  {
    var s1 := Upsert(store, first);
    var i := FindIndex(store, first.name);
    if i >= 0 {
      assert FindIndex(s1, second.name) == i;
    } else {
      assert s1[|store|].name == second.name;
      assert FindIndex(s1, second.name) == |store|;
    }
  }

  /** Saves keep names unique in a store whose names were unique. */
  lemma UpsertKeepsNamesDistinct(store: Store, layout: SavedLayout)
    requires DistinctNames(store)
    ensures DistinctNames(Upsert(store, layout))
  {
    var r := Upsert(store, layout);
    if !HasName(store, layout.name) {
      forall j | 0 <= j < |store|
        ensures r[j].name != layout.name
      {
        assert Names(store)[j] == store[j].name;
      }
    }
  }
}
