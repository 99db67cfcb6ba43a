/** Keeping the first of several items with one key. */
module FirstOfEach {
  function KeysOf<T, K(==)>(items: seq<T>, key: T -> K): set<K> {
    if items == [] then {} else KeysOf(items[..|items| - 1], key) + {key(items[|items| - 1])}
  }

  /** The items whose key no earlier item has. */
  function Deduped<T, K(==)>(items: seq<T>, key: T -> K): seq<T> {
    if items == [] then []
    else
      var front, last := items[..|items| - 1], items[|items| - 1];
      Deduped(front, key) + if key(last) in KeysOf(front, key) then [] else [last]
  }

  /** Where they stand. */
  function Places<T, K(==)>(items: seq<T>, key: T -> K): seq<nat> {
    if items == [] then []
    else
      var front, last := items[..|items| - 1], items[|items| - 1];
      Places(front, key) + if key(last) in KeysOf(front, key) then [] else [|front|]
  }

  lemma DedupedNext<T, K>(items: seq<T>, i: nat, key: T -> K)
    requires i < |items|
    ensures KeysOf(items[..i + 1], key) == KeysOf(items[..i], key) + {key(items[i])}
    ensures Deduped(items[..i + 1], key)
         == Deduped(items[..i], key) + if key(items[i]) in KeysOf(items[..i], key) then [] else [items[i]]
  {
    assert items[..i + 1][..i] == items[..i];
  }

  lemma {:induction false} KeyIn<T, K>(items: seq<T>, k: K, key: T -> K)
    ensures k in KeysOf(items, key) <==> exists i | 0 <= i < |items| :: key(items[i]) == k
  {
    if items != [] {
      var front := items[..|items| - 1];
      KeyIn(front, k, key);
      assert forall i | 0 <= i < |front| :: items[i] == front[i];
    }
  }

  predicate IsFirst<T, K(==)>(items: seq<T>, i: nat, key: T -> K)
    requires i < |items|
  {
    forall j | 0 <= j < i :: key(items[j]) != key(items[i])
  }

  ghost predicate StandAt<T>(items: seq<T>, kept: seq<T>, places: seq<nat>) {
    && |places| == |kept|
    && (forall k | 0 <= k < |places| :: places[k] < |items| && items[places[k]] == kept[k])
    && forall j, k | 0 <= j < k < |places| :: places[j] < places[k]
  }

  /** `kept` are the items at `places`, which are, in order, exactly those of the items that no earlier item
      shares its key with. */
  ghost predicate FirstsAt<T, K>(items: seq<T>, kept: seq<T>, places: seq<nat>, key: T -> K) {
    && StandAt(items, kept, places)
    && (forall k | 0 <= k < |places| :: IsFirst(items, places[k], key))
    && forall i | 0 <= i < |items| && IsFirst(items, i, key) :: i in places
  }

  lemma FirstSnoc<T, K>(front: seq<T>, last: T, key: T -> K)
    ensures forall i | 0 <= i < |front| :: IsFirst(front + [last], i, key) <==> IsFirst(front, i, key)
    ensures IsFirst(front + [last], |front|, key) <==> key(last) !in KeysOf(front, key)
  {
    var all := front + [last];
    assert forall i | 0 <= i < |front| :: all[i] == front[i];
    assert all[|front|] == last;
    KeyIn(front, key(last), key);
  }

  lemma StandAtSnoc<T>(front: seq<T>, last: T, kept: seq<T>, places: seq<nat>)
    requires StandAt(front, kept, places)
    ensures StandAt(front + [last], kept, places) && StandAt(front + [last], kept + [last], places + [|front|])
  {
  }

  lemma PlaceAdded<T, K>(front: seq<T>, last: T, kept: seq<T>, places: seq<nat>, key: T -> K)
    requires FirstsAt(front, kept, places, key) && key(last) !in KeysOf(front, key)
    ensures FirstsAt(front + [last], kept + [last], places + [|front|], key)
  {
    var all, more := front + [last], places + [|front|];
    StandAtSnoc(front, last, kept, places);
    FirstSnoc(front, last, key);
    forall k | 0 <= k < |more|
      ensures IsFirst(all, more[k], key)
    {
      assert k < |places| ==> more[k] == places[k];
    }
    forall i | 0 <= i < |all| && IsFirst(all, i, key)
      ensures i in more
    {
      assert i < |front| ==> i in places;
      assert i == |front| ==> more[|places|] == i;
    }
  }

  lemma PlacesKept<T, K>(front: seq<T>, last: T, kept: seq<T>, places: seq<nat>, key: T -> K)
    requires FirstsAt(front, kept, places, key) && key(last) in KeysOf(front, key)
    ensures FirstsAt(front + [last], kept, places, key)
  {
    StandAtSnoc(front, last, kept, places);
    FirstSnoc(front, last, key);
  }

  lemma {:induction false} DedupKeepsFirst<T, K>(items: seq<T>, key: T -> K)
    ensures FirstsAt(items, Deduped(items, key), Places(items, key), key)
  {
    if items != [] {
      var front, last := items[..|items| - 1], items[|items| - 1];
      assert items == front + [last];
      DedupKeepsFirst(front, key);
      if key(last) in KeysOf(front, key) {
        PlacesKept(front, last, Deduped(front, key), Places(front, key), key);
        assert Deduped(items, key) == Deduped(front, key) && Places(items, key) == Places(front, key);
      } else {
        PlaceAdded(front, last, Deduped(front, key), Places(front, key), key);
      }
    }
  }

  ghost predicate DistinctKeys<T, K>(items: seq<T>, key: T -> K) {
    forall i, j | 0 <= i < j < |items| :: key(items[i]) != key(items[j])
  }

  lemma KeptAreDistinct<T, K>(items: seq<T>, key: T -> K)
    ensures DistinctKeys(Deduped(items, key), key)
  {
    DedupKeepsFirst(items, key);
    var kept, places := Deduped(items, key), Places(items, key);
    forall i, j | 0 <= i < j < |kept|
      ensures key(kept[i]) != key(kept[j])
    {
      assert places[i] < places[j] && IsFirst(items, places[j], key);
    }
  }

  lemma KeptAreItems<T, K>(items: seq<T>, key: T -> K)
    ensures forall item | item in Deduped(items, key) :: item in items
  {
    DedupKeepsFirst(items, key);
  }

  lemma LastIsNew<T, K>(front: seq<T>, last: T, key: T -> K)
    requires DistinctKeys(front + [last], key)
    ensures DistinctKeys(front, key) && key(last) !in KeysOf(front, key)
  {
    var all := front + [last];
    assert all[|front|] == last && forall i | 0 <= i < |front| :: all[i] == front[i];
    KeyIn(front, key(last), key);
  }

  lemma {:induction false} DistinctStay<T, K>(items: seq<T>, key: T -> K)
    requires DistinctKeys(items, key)
    ensures Deduped(items, key) == items
  {
    if items != [] {
      var front, last := items[..|items| - 1], items[|items| - 1];
      assert items == front + [last];
      LastIsNew(front, last, key);
      DistinctStay(front, key);
    }
  }
}
