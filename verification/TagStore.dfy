/** The runtime tag store: slots, the index over them, the sorted id cache and the subscribers. */
module TagStores {
  import opened TagModel
  import opened Ids

  datatype CoreError =
    | TagNotFound(id: string)
    | DefinitionNotFound(id: string)
    | TypeMismatchOf(id: string)
    | InvalidConfig(id: string)

  /** A change event: the tag after the change. */
  datatype TagChange = TagChange(tagId: string, tag: Tag)

  /** Events a subscriber has not taken yet, and whether it still listens. */
  datatype Channel = Channel(pending: seq<TagChange>, connected: bool)

  const CHANNEL_CAPACITY := 128

  /** Slot `k` belongs to some id. */
  ghost predicate Occupied(index: map<string, nat>, k: nat)
  {
    exists id :: id in index && index[id] == k
  }

  /** The structural state: a slot's number is its identity, the index and the id cache point into the slots. */
  datatype Store = Store(tags: seq<Tag>, index: map<string, nat>, sortedIds: seq<string>)
  {
    /** `index` is a bijection onto the slots and the cache lists exactly its ids, strictly sorted. */
    ghost predicate Valid()
    {
      && (forall id :: id in index ==> index[id] < |tags|)
      && (forall a, b :: a in index && b in index && index[a] == index[b] ==> a == b)
      && (forall k :: 0 <= k < |tags| ==> Occupied(index, k))
      && StrictlySorted(sortedIds)
      && (forall id :: id in sortedIds <==> id in index)
    }

    /** The abstract map the store stands for. */
    function Tags(): map<string, Tag>
      requires forall id :: id in index ==> index[id] < |tags|
    {
      map id | id in index :: tags[index[id]]
    }

    /** Overwrite slot `k`. */
    function Put(k: nat, tag: Tag): Store
      requires k < |tags|
    {
      this.(tags := tags[k := tag])
    }

    /** Append a slot for a new id. */
    function Append(id: string, tag: Tag): Store
    {
      Store(tags + [tag], index[id := |tags|], Inserted(sortedIds, id))
    }
  }

  const EMPTY := Store([], map[], [])

  /** Slots are never lost or renumbered from `s` to `t`. */
  ghost predicate Grows(s: Store, t: Store)
  {
    |s.tags| <= |t.tags| && forall id :: id in s.index ==> id in t.index && t.index[id] == s.index[id]
  }

  lemma {:induction false} PutIsUpdate(s: Store, id: string, tag: Tag)
    requires s.Valid() && id in s.index
    ensures var t := s.Put(s.index[id], tag);
            t.Valid() && Grows(s, t) && t.Tags() == s.Tags()[id := tag]
  {
    var t := s.Put(s.index[id], tag);
    forall k | 0 <= k < |t.tags| ensures Occupied(t.index, k) {
      assert Occupied(s.index, k);
    }
    assert t.Tags() == s.Tags()[id := tag];
  }

  lemma {:induction false} AppendIsUpdate(s: Store, id: string, tag: Tag)
    requires s.Valid() && id !in s.index
    ensures var t := s.Append(id, tag);
            t.Valid() && Grows(s, t) && t.Tags() == s.Tags()[id := tag]
  {
    var t := s.Append(id, tag);
    InsertedStaysSorted(s.sortedIds, id);
    forall k | 0 <= k < |t.tags| ensures Occupied(t.index, k) {
      if k < |s.tags| {
        assert Occupied(s.index, k);
        var x :| x in s.index && s.index[x] == k;
        assert x in t.index && t.index[x] == k;
      } else {
        assert t.index[id] == k;
      }
    }
    assert t.Tags() == s.Tags()[id := tag];
  }

  /** The store object; every method is one undisturbed run of the lock-protected and per-slot steps. */
  class TagStore {
    var store: Store
    var subscribers: seq<Channel>

    ghost predicate Valid()
      reads this
    {
      store.Valid()
    }

    /** The tags by id. */
    function View(): map<string, Tag>
      requires Valid()
      reads this
    {
      store.Tags()
    }

    constructor ()
      ensures Valid() && store == EMPTY && View() == map[] && subscribers == []
    {
      store := EMPTY;
      subscribers := [];
    }

    /** Tell every subscriber, best effort: one that does not listen or has no room loses the event. */
    method BroadcastChange(tagId: string, tag: Tag)
      modifies this`subscribers
      ensures |subscribers| == |old(subscribers)|
      ensures forall i :: 0 <= i < |subscribers| ==>
                subscribers[i] == if old(subscribers)[i].connected && |old(subscribers)[i].pending| < 128
                                  then Channel(old(subscribers)[i].pending + [TagChange(tagId, tag)], true) else old(subscribers)[i]
    {
      var event := TagChange(tagId, tag);
      for i := 0 to |subscribers|
        invariant |subscribers| == |old(subscribers)|
        invariant forall k :: i <= k < |subscribers| ==> subscribers[k] == old(subscribers)[k]
        invariant forall k :: 0 <= k < i ==>
                    subscribers[k] == if old(subscribers)[k].connected && |old(subscribers)[k].pending| < CHANNEL_CAPACITY
                                      then Channel(old(subscribers)[k].pending + [event], true) else old(subscribers)[k]
      {
        var c := subscribers[i];
        if c.connected && |c.pending| < CHANNEL_CAPACITY {
          subscribers := subscribers[i := c.(pending := c.pending + [event])];
        }
      }
    }

    /** Insert or replace the tag under `id`; an existing slot is reused, a new one is appended. */
    method Insert(id: string, tag: Tag)
      requires Valid()
      modifies this
      ensures Valid() && Grows(old(store), store)
      ensures View() == old(View())[id := tag]
      ensures |subscribers| == |old(subscribers)|
      ensures forall i :: 0 <= i < |subscribers| ==>
                subscribers[i] == if old(subscribers)[i].connected && |old(subscribers)[i].pending| < 128
                                  then Channel(old(subscribers)[i].pending + [TagChange(id, tag)], true) else old(subscribers)[i]
    {
      if id in store.index {
        PutIsUpdate(store, id, tag);
        store := store.Put(store.index[id], tag);
      } else {
        AppendIsUpdate(store, id, tag);
        var slot := |store.tags|;
        var found, pos := BinarySearch(store.sortedIds, id);
        InsertedAt(store.sortedIds, id, pos);
        store := Store(
          store.tags + [tag],
          store.index[id := slot],
          store.sortedIds[..pos] + [id] + store.sortedIds[pos..]);
      }
      BroadcastChange(id, tag);
    }

    /** A snapshot of the tag under `id`. */
    method Get(id: string) returns (r: Result<Tag, CoreError>)
      requires Valid()
      ensures r == if id in View() then Ok(View()[id]) else Err(TagNotFound(id))
    {
      if id in store.index {
        r := Ok(store.tags[store.index[id]]);
      } else {
        r := Err(TagNotFound(id));
      }
    }

    /** Register a subscriber; it sees later changes only. */
    method Subscribe() returns (channel: nat)
      modifies this`subscribers
      ensures channel == |old(subscribers)|
      ensures subscribers == old(subscribers) + [Channel([], true)]
    {
      channel := |subscribers|;
      subscribers := subscribers + [Channel([], true)];
    }

    /** Replace value, quality and source timestamp, if the value has the expected type and the tag exists. */
    method UpdateValueWithExpected(id: string, value: TagValue, quality: TagQuality, sourceTs: Timestamp, now: Timestamp,
                                   expected: TagDataType) returns (r: Result<Tag, CoreError>)
      requires Valid()
      modifies this
      ensures Valid() && Grows(old(store), store) && store.index == old(store).index
      ensures !value.Matches(expected) ==> r == Err(TypeMismatchOf(id))
      ensures value.Matches(expected) && id !in old(View()) ==> r == Err(TagNotFound(id))
      ensures value.Matches(expected) && id in old(View()) ==>
                && r == Ok(Tag(value, quality, sourceTs, now))
                && View() == old(View())[id := r.value]
                && |subscribers| == |old(subscribers)|
                && forall i :: 0 <= i < |subscribers| ==>
                     subscribers[i] == if old(subscribers)[i].connected && |old(subscribers)[i].pending| < 128
                                       then Channel(old(subscribers)[i].pending + [TagChange(id, View()[id])], true) else old(subscribers)[i]
      ensures r.Err? ==> store == old(store) && subscribers == old(subscribers)
    {
      if !value.Matches(expected) {
        return Err(TypeMismatchOf(id));
      }
      if id !in store.index {
        return Err(TagNotFound(id));
      }
      var slot := store.index[id];
      var current := store.tags[slot];
      var newTag := current.ApplyRead(value, quality, sourceTs, now);
      PutIsUpdate(store, id, newTag);
      store := store.Put(slot, newTag);
      BroadcastChange(id, newTag);
      r := Ok(newTag);
    }

    /** Replace only the quality. */
    method SetQuality(id: string, quality: TagQuality, now: Timestamp) returns (r: Result<(), CoreError>)
      requires Valid()
      modifies this
      ensures Valid() && Grows(old(store), store) && store.index == old(store).index
      ensures r == if id in old(View()) then Ok(()) else Err(TagNotFound(id))
      ensures r.Ok? ==>
                && View() == old(View())[id := Tag(old(View())[id].value, quality, old(View())[id].sourceTimestamp, now)]
                && |subscribers| == |old(subscribers)|
                && forall i :: 0 <= i < |subscribers| ==>
                     subscribers[i] == if old(subscribers)[i].connected && |old(subscribers)[i].pending| < 128
                                       then Channel(old(subscribers)[i].pending + [TagChange(id, View()[id])], true) else old(subscribers)[i]
      ensures r.Err? ==> store == old(store) && subscribers == old(subscribers)
    {
      if id !in store.index {
        return Err(TagNotFound(id));
      }
      var slot := store.index[id];
      var newTag := store.tags[slot].SetQuality(quality, now);
      PutIsUpdate(store, id, newTag);
      store := store.Put(slot, newTag);
      BroadcastChange(id, newTag);
      r := Ok(());
    }

    /** All ids, strictly sorted: the only such list. */
    method ListIdsSorted() returns (ids: seq<string>)
      requires Valid()
      ensures StrictlySorted(ids) && forall id :: id in ids <==> id in View()
    {
      ids := store.sortedIds;
    }

    /** The number of tags. */
    method Len() returns (n: nat)
      requires Valid()
      ensures n == |store.sortedIds| == |View()|
    {
      n := |store.tags|;
      SlotCount(store);
    }
  }

  /** As many slots as ids: the index is a bijection. */
  lemma {:induction false} SlotCount(s: Store)
    requires s.Valid()
    ensures |s.tags| == |s.index| == |s.sortedIds| == |s.Tags()|
  {
    assert s.Tags().Keys == s.index.Keys;
    assert (set id | id in s.sortedIds) == s.index.Keys;
    SortedSize(s.sortedIds);
    BijectionSize(s.index, |s.tags|);
  }

  lemma {:induction false} SortedSize(ids: seq<string>)
    requires StrictlySorted(ids)
    ensures |set id | id in ids| == |ids|
  {
    if ids != [] {
      SortedSize(ids[1..]);
      var tail := set id | id in ids[1..];
      assert ids[0] !in tail by {
        TailMembers(ids, ids[0]);
      }
      assert (set id | id in ids) == tail + {ids[0]};
    }
  }

  lemma {:induction false} BijectionSize(index: map<string, nat>, n: nat)
    requires forall id :: id in index ==> index[id] < n
    requires forall a, b :: a in index && b in index && index[a] == index[b] ==> a == b
    requires forall k :: 0 <= k < n ==> Occupied(index, k)
    ensures |index| == n
  {
    if n == 0 {
      assert index == map[];
    } else {
      assert Occupied(index, n - 1);
      var last :| last in index && index[last] == n - 1;
      var rest := map id | id in index && id != last :: index[id];
      forall k | 0 <= k < n - 1 ensures Occupied(rest, k) {
        assert Occupied(index, k);
        var id :| id in index && index[id] == k;
        assert id in rest && rest[id] == k;
      }
      BijectionSize(rest, n - 1);
      assert index.Keys == rest.Keys + {last};
    }
  }
}
