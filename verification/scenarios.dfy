/** The behaviours the repository's tests exercise, as statements about every input of the
    same shape: a batch written to an empty store reads back, deleting part of it leaves
    exactly the rest, and two keys holding the same big value share their chunks. */
module Scenarios {
  import opened Outcomes
  import opened Values
  import opened Entries
  import opened BigStorage
  import opened StoreInvariants
  import opened SetProofs
  import opened DeleteProofs
  import MapFacts

  /** A batch of storable values written to an empty store reads back exactly, leaves the
      store well formed, and, when its keys are distinct, leaves no unlisted chunk. */
  lemma SetThenGet(cfg: Config, items: seq<Item>)
    requires CodecSound(cfg) && CollisionFree(cfg)
    requires forall i :: 0 <= i < |items| ==> Storable(cfg, items[i])
    requires forall i, j :: 0 <= i < j < |items| ==> items[i].key != items[j].key
    ensures WellFormed(cfg, Set(cfg, map[], items))
    ensures NoGarbage(Set(cfg, map[], items))
    ensures Get(cfg, Set(cfg, map[], items)) == Ok(ItemsMap(items))
  {
    EmptyStore(cfg);
    SetView(cfg, map[], items);
    SetKeepsNoGarbage(cfg, map[], items);
    MapFacts.EmptyUnion(ItemsMap(items));
  }

  /** Writing a batch and then deleting some of its keys reads back as the batch without
      those keys; the chunks left are exactly those a remaining manifest lists. */
  lemma SetThenDelete(cfg: Config, items: seq<Item>, keys: seq<string>)
    requires CodecSound(cfg) && CollisionFree(cfg)
    requires forall i :: 0 <= i < |items| ==> Storable(cfg, items[i])
    requires forall i, j :: 0 <= i < j < |items| ==> items[i].key != items[j].key
    requires LogicalKeys(keys)
    ensures var s := Set(cfg, map[], items);
      && Get(cfg, Delete(s, keys)) == Ok(ItemsMap(items) - (set k | k in keys))
      && NoGarbage(Delete(s, keys))
      && forall c :: c in s && IsChunkKey(c) ==>
           (c in Delete(s, keys) <==> ReferencedBySurvivor(s, keys, c))
  {
    var s := Set(cfg, map[], items);
    SetThenGet(cfg, items);
    DeleteView(cfg, s, keys);
    DeleteReclaims(cfg, s, keys);
  }

  /** Two keys holding the same value, then one of them deleted: the store is exactly as if
      only the other had been written, because every chunk is still listed by it. Deleting
      the other as well empties the store. */
  lemma SharedChunksScenario(cfg: Config, a: string, b: string, v: Value)
    requires CodecSound(cfg) && CollisionFree(cfg)
    requires a != b
    requires Storable(cfg, Item(a, v)) && Storable(cfg, Item(b, v))
    ensures Delete(Set(cfg, map[], [Item(a, v), Item(b, v)]), [b]) == Set(cfg, map[], [Item(a, v)])
    ensures Delete(Set(cfg, map[], [Item(a, v), Item(b, v)]), [a]) == Set(cfg, map[], [Item(b, v)])
    ensures Delete(Set(cfg, map[], [Item(a, v)]), [a]) == map[]
  {
    DeleteTwin(cfg, a, b, v);
    DeleteTwinFirst(cfg, a, b, v);
    DeleteLast(cfg, a, v);
  }

  /** The batch order of two keys holding the same value does not matter, so deleting the
      first of them is the same as deleting the second of the swapped batch. */
  lemma DeleteTwinFirst(cfg: Config, a: string, b: string, v: Value)
    requires a != b && !IsChunkKey(a) && !IsChunkKey(b)
    ensures Delete(Set(cfg, map[], [Item(a, v), Item(b, v)]), [a]) == Set(cfg, map[], [Item(b, v)])
  {
    SetPairCommutes(cfg, a, b, v);
    DeleteTwin(cfg, b, a, v);
  }

  /** Writing one value under two keys gives the same store in either batch order. */
  lemma SetPairCommutes(cfg: Config, a: string, b: string, v: Value)
    requires a != b && !IsChunkKey(a) && !IsChunkKey(b)
    ensures Set(cfg, map[], [Item(a, v), Item(b, v)]) == Set(cfg, map[], [Item(b, v), Item(a, v)])
  {
    var sa := StageItem(cfg, Item(a, v));
    var sb := StageItem(cfg, Item(b, v));
    SameValueSharesChunks(cfg, map[], a, b, v);
    SameValueSharesChunks(cfg, map[], b, a, v);
    SetOne(cfg, map[], Item(a, v));
    SetOne(cfg, map[], Item(b, v));
    MapFacts.EmptyUnion(sa);
    MapFacts.EmptyUnion(sb);
    StageItemKey(cfg, Item(a, v));
    StageItemKey(cfg, Item(b, v));
    SameChunkEntries(cfg, cfg, a, b, v);
    MapFacts.SwapKeys(sa, sb, a, b, StoredForm(cfg, v));
  }

  /** With the default ceiling of 1024, small values such as numbers, short strings and
      small records are each stored verbatim: the backend holds exactly the batch, and
      every entry is classified as simple. */
  lemma {:induction false} SmallValuesStaySimple(cfg: Config, items: seq<Item>)
    requires cfg.maxItemBytes == DefaultMaxItemBytes
    requires forall i :: 0 <= i < |items| ==>
      && !IsChunkKey(items[i].key)
      && |cfg.encode(items[i].value)| <= DefaultMaxItemBytes
      && !IsManifest(items[i].value)
    ensures Set(cfg, map[], items) == ItemsMap(items)
    ensures forall k :: k in ItemsMap(items) ==> Classify(k, ItemsMap(items)[k]) == Simple(ItemsMap(items)[k])
    decreases |items|
  {
    if items == [] {
      SetNothing(cfg, map[], items);
    } else {
      var n := |items| - 1;
      var last := items[n];
      assert forall i :: 0 <= i < n ==> items[..n][i] == items[i];
      SmallValuesStaySimple(cfg, items[..n]);
      SetSnoc(cfg, map[], items);
      MapFacts.Extensionality(StageItem(cfg, last), map[last.key := last.value]);
      MapFacts.UnionSingleton(ItemsMap(items[..n]), last.key, last.value);
    }
  }

  /** In the default namespace every chunk key starts with the same fixed prefix. */
  lemma DefaultChunkKeyPrefix(cfg: Config, piece: string)
    requires cfg.namespace == DefaultNamespace
    ensures ChunkKey(cfg, piece)[..6] == "chunk-"
    ensures ChunkKey(cfg, piece)[6..42] == "3cc36853-b864-4122-beaa-516aa24448f6"
  {
    var k := ChunkKey(cfg, piece);
    assert k[..|ChunkPrefix|] == ChunkPrefix;
    assert k[|ChunkPrefix|..|ChunkPrefix| + |DefaultNamespace|] == DefaultNamespace;
  }

  /** The first half: deleting one of two keys holding the same value. */
  lemma DeleteTwin(cfg: Config, a: string, b: string, v: Value)
    requires a != b && !IsChunkKey(a) && !IsChunkKey(b)
    ensures Delete(Set(cfg, map[], [Item(a, v), Item(b, v)]), [b]) == Set(cfg, map[], [Item(a, v)])
  {
    var once := Set(cfg, map[], [Item(a, v)]);
    SameValueSharesChunks(cfg, map[], a, b, v);
    SetOne(cfg, map[], Item(a, v));
    StageItemKey(cfg, Item(a, v));
    assert b !in once;
    DeleteDuplicate(once, a, b);
  }

  /** The second half: deleting the only key of a store written by one Set. */
  lemma DeleteLast(cfg: Config, a: string, v: Value)
    requires CodecSound(cfg) && CollisionFree(cfg)
    requires Storable(cfg, Item(a, v))
    ensures Delete(Set(cfg, map[], [Item(a, v)]), [a]) == map[]
  {
    OneItemStore(cfg, Item(a, v));
    DeleteAllEmpties(cfg, Set(cfg, map[], [Item(a, v)]), [a]);
  }

  /** One storable item written to an empty store gives a store that satisfies both
      invariants and whose only logical key is the item's. */
  lemma OneItemStore(cfg: Config, it: Item)
    requires CodecSound(cfg) && CollisionFree(cfg)
    requires Storable(cfg, it)
    ensures WellFormed(cfg, Set(cfg, map[], [it])) && NoGarbage(Set(cfg, map[], [it]))
    ensures forall k :: k in Set(cfg, map[], [it]) && !IsChunkKey(k) ==> k == it.key
  {
    SetOne(cfg, map[], it);
    EmptyStore(cfg);
    StageItemWellFormed(cfg, map[], it);
    SetKeepsNoGarbage(cfg, map[], [it]);
  }

  /** Deleting a key whose entry duplicates another surviving key's entry removes only it. */
  lemma DeleteDuplicate(s: Store, a: string, b: string)
    requires a in s && b !in s && !IsChunkKey(a)
    ensures Delete(s[b := s[a]], [b]) == s
  {
    var t := s[b := s[a]];
    var r := Delete(t, [b]);
    forall k | k in s ensures k in r {
      if ReferencedByDeleted(t, [b], k) {
        assert a in t && a !in [b] && t[a] == t[b];
        assert ReferencedBySurvivor(t, [b], k);
      }
    }
    MapFacts.Extensionality(r, s);
  }
}
