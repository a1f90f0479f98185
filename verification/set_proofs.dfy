/** What Set does to the backend and to what Get returns afterwards. */
module SetProofs {
  import opened Outcomes
  import opened Values
  import opened Entries
  import opened Chunking
  import opened BigStorage
  import opened StoreInvariants
  import MapFacts

  /** An item the store can hand back unchanged: its key is not a chunk key, and a value
      stored verbatim does not look like a manifest. */
  ghost predicate Storable(cfg: Config, it: Item) {
    !IsChunkKey(it.key) && (Fits(cfg, it.value) ==> !IsManifest(it.value))
  }

  /** The logical contents a batch asks for; a later item for the same key wins. */
  function ItemsMap(items: seq<Item>): (m: map<string, Value>)
    ensures m.Keys == KeysOf(items)
    decreases |items|
  {
    if items == [] then map[]
    else
      var n := |items| - 1;
      ItemsMap(items[..n])[items[n].key := items[n].value]
  }

  /** The raw entry left under the logical key of one stored item. */
  function StoredForm(cfg: Config, v: Value): Value {
    if Fits(cfg, v) then v else ManifestValue(ChunkKeys(cfg, Pieces(cfg, v)))
  }

  /** The item's key receives the item's stored form. */
  lemma StageItemKey(cfg: Config, it: Item)
    requires !IsChunkKey(it.key)
    ensures it.key in StageItem(cfg, it) && StageItem(cfg, it)[it.key] == StoredForm(cfg, it.value)
  {
  }

  /** Without its key, the writes staged for an oversized value are its chunk writes. */
  lemma StageItemChunkWrites(cfg: Config, it: Item)
    requires !IsChunkKey(it.key) && !Fits(cfg, it.value)
    ensures StageItem(cfg, it) - {it.key} == ChunkWrites(cfg, Pieces(cfg, it.value))
  {
    var pieces := Pieces(cfg, it.value);
    var w := ChunkWrites(cfg, pieces);
    assert it.key !in w;
    MapFacts.UpdateRemove(w, it.key, ManifestValue(ChunkKeys(cfg, pieces)));
  }

  /** Chunk entries already in a well-formed store keep their content when an item is
      staged: a chunk key is only ever rewritten with the content it already holds. */
  lemma StageItemKeepsChunks(cfg: Config, s: Store, it: Item)
    requires CollisionFree(cfg)
    requires WellFormed(cfg, s)
    requires !IsChunkKey(it.key)
    ensures forall c :: c in s && IsChunkKey(c) ==>
      c in s + StageItem(cfg, it) && (s + StageItem(cfg, it))[c] == s[c]
  {
    var st := StageItem(cfg, it);
    StageItemKey(cfg, it);
    forall c | c in s && IsChunkKey(c) ensures c in s + st && (s + st)[c] == s[c] {
      if c in st {
        ChunkKeyInjective(cfg, s[c].s, st[c].s);
      }
    }
  }

  /** The item's own key reads back as the item's value, and lists only chunk keys. */
  lemma StageItemReadsBack(cfg: Config, s: Store, it: Item)
    requires CodecSound(cfg) && CollisionFree(cfg)
    requires Storable(cfg, it)
    ensures it.key in s + StageItem(cfg, it)
    ensures ReadEntry(cfg, s + StageItem(cfg, it), it.key) == Ok(it.value)
    ensures forall c :: c in Refs((s + StageItem(cfg, it))[it.key]) ==> IsChunkKey(c)
  {
    var s' := s + StageItem(cfg, it);
    StageItemKey(cfg, it);
    if !Fits(cfg, it.value) {
      var pieces := Pieces(cfg, it.value);
      var cks := ChunkKeys(cfg, pieces);
      assert s'[it.key] == ManifestValue(cks);
      ParseManifestValue(cks);
      ChunkWritesContent(cfg, pieces);
      forall i | 0 <= i < |cks| ensures cks[i] in s' && s'[cks[i]] == Str(pieces[i]) {
        assert cks[i] in ChunkWrites(cfg, pieces);
        assert cks[i] != it.key;
      }
      ReassemblePieces(s', cks, pieces);
      assert Concat(pieces) == cfg.encode(it.value);
    }
  }

  /** Every logical key other than the item's reads as before once the item is staged. */
  lemma StageItemKeepsReads(cfg: Config, s: Store, it: Item)
    requires CollisionFree(cfg)
    requires WellFormed(cfg, s)
    requires !IsChunkKey(it.key)
    ensures forall j :: j in s && !IsChunkKey(j) && j != it.key ==>
      j in s + StageItem(cfg, it) && (s + StageItem(cfg, it))[j] == s[j]
      && ReadEntry(cfg, s + StageItem(cfg, it), j) == ReadEntry(cfg, s, j)
  {
    var s' := s + StageItem(cfg, it);
    StageItemKey(cfg, it);
    StageItemKeepsChunks(cfg, s, it);
    forall j | j in s && !IsChunkKey(j) && j != it.key
      ensures j in s' && s'[j] == s[j] && ReadEntry(cfg, s', j) == ReadEntry(cfg, s, j)
    {
      ReadEntryKept(cfg, s, s', j);
    }
  }

  /** Storing one item keeps the store well formed. */
  lemma StageItemWellFormed(cfg: Config, s: Store, it: Item)
    requires CodecSound(cfg) && CollisionFree(cfg)
    requires WellFormed(cfg, s)
    requires Storable(cfg, it)
    ensures WellFormed(cfg, s + StageItem(cfg, it))
  {
    var st := StageItem(cfg, it);
    var s' := s + st;
    StageItemReadsBack(cfg, s, it);
    StageItemKeepsReads(cfg, s, it);
    forall j | j in s' ensures KeyIntact(cfg, s', j) {
      if j == it.key {
      } else if j in st {
        assert s'[j] == st[j];
        assert ChunkIntact(cfg, j, st[j]);
      } else {
        assert j in s && s'[j] == s[j];
        assert KeyIntact(cfg, s, j);
      }
    }
  }

  /** After storing one item, Get returns what it returned before with that key bound to
      the item's value. */
  lemma StageItemView(cfg: Config, s: Store, it: Item)
    requires CodecSound(cfg) && CollisionFree(cfg)
    requires WellFormed(cfg, s)
    requires Storable(cfg, it)
    ensures WellFormed(cfg, s + StageItem(cfg, it))
    ensures Get(cfg, s + StageItem(cfg, it)) == Ok(Get(cfg, s).value[it.key := it.value])
  {
    var st := StageItem(cfg, it);
    var s' := s + st;
    var k := it.key;
    StageItemWellFormed(cfg, s, it);
    StageItemReadsBack(cfg, s, it);
    StageItemKeepsReads(cfg, s, it);
    WellFormedGet(cfg, s);
    WellFormedGet(cfg, s');
    var before := Get(cfg, s).value;
    var after := Get(cfg, s').value;
    var wanted := before[k := it.value];
    forall j ensures j in after <==> j in wanted {
      assert j in s' && !IsChunkKey(j) <==> (j in s && !IsChunkKey(j)) || j == k;
    }
    forall j | j in after ensures after[j] == wanted[j] {
      if j != k {
        assert after[j] == ReadEntry(cfg, s', j).value;
        assert before[j] == ReadEntry(cfg, s, j).value;
      }
    }
    MapFacts.Extensionality(after, wanted);
  }

  /** A batch is its prefix followed by its last item. */
  lemma SetSnoc(cfg: Config, s: Store, items: seq<Item>)
    requires items != []
    ensures Set(cfg, s, items) == Set(cfg, s, items[..|items| - 1]) + StageItem(cfg, items[|items| - 1])
  {
    var n := |items| - 1;
    var a := Staged(cfg, items[..n]);
    var b := StageItem(cfg, items[n]);
    assert Staged(cfg, items) == a + b;
    MapFacts.UnionAssoc(s, a, b);
  }

  /** A batch of one item writes exactly that item's staged entries. */
  lemma SetOne(cfg: Config, s: Store, it: Item)
    ensures Set(cfg, s, [it]) == s + StageItem(cfg, it)
  {
    assert [it][..0] == [];
    assert Staged(cfg, [it]) == Staged(cfg, []) + StageItem(cfg, it);
    assert Staged(cfg, []) == map[];
    MapFacts.EmptyUnion(StageItem(cfg, it));
  }

  /** A batch of two items is the first item's Set followed by the second's writes. */
  lemma SetPair(cfg: Config, s: Store, x: Item, y: Item)
    ensures Set(cfg, s, [x, y]) == Set(cfg, s, [x]) + StageItem(cfg, y)
  {
    var items := [x, y];
    assert items[..1] == [x];
    assert Staged(cfg, items) == Staged(cfg, [x]) + StageItem(cfg, y);
    MapFacts.UnionAssoc(s, Staged(cfg, [x]), StageItem(cfg, y));
  }

  /** Set keeps the store well formed, and afterwards Get returns the previous contents
      overridden by the batch: every value comes back unchanged, whether it was stored
      verbatim or reassembled from its chunks. */
  lemma SetView(cfg: Config, s: Store, items: seq<Item>)
    requires CodecSound(cfg) && CollisionFree(cfg)
    requires WellFormed(cfg, s)
    requires forall i :: 0 <= i < |items| ==> Storable(cfg, items[i])
    ensures WellFormed(cfg, Set(cfg, s, items))
    ensures Get(cfg, Set(cfg, s, items)) == Ok(Get(cfg, s).value + ItemsMap(items))
  {
    WellFormedGet(cfg, s);
    SetKeepsWellFormed(cfg, s, items);
    SetReadsBack(cfg, s, Get(cfg, s).value, items);
  }

  /** An empty batch changes nothing. */
  lemma SetNothing(cfg: Config, s: Store, items: seq<Item>)
    requires items == []
    ensures Set(cfg, s, items) == s
  {
    assert Staged(cfg, items) == map[];
    MapFacts.UnionEmpty(s);
  }

  /** Set keeps the store well formed. */
  lemma {:induction false} SetKeepsWellFormed(cfg: Config, s: Store, items: seq<Item>)
    requires CodecSound(cfg) && CollisionFree(cfg)
    requires WellFormed(cfg, s)
    requires forall i :: 0 <= i < |items| ==> Storable(cfg, items[i])
    ensures WellFormed(cfg, Set(cfg, s, items))
    decreases |items|
  {
    if items == [] {
      SetNothing(cfg, s, items);
    } else {
      var n := |items| - 1;
      assert forall i :: 0 <= i < n ==> items[..n][i] == items[i];
      SetKeepsWellFormed(cfg, s, items[..n]);
      SetSnoc(cfg, s, items);
      StageItemWellFormed(cfg, Set(cfg, s, items[..n]), items[n]);
    }
  }

  /** After Set, Get returns the contents it returned before, overridden by the batch. */
  lemma {:induction false} SetReadsBack(cfg: Config, s: Store, view: map<string, Value>, items: seq<Item>)
    requires CodecSound(cfg) && CollisionFree(cfg)
    requires WellFormed(cfg, s) && Get(cfg, s) == Ok(view)
    requires forall i :: 0 <= i < |items| ==> Storable(cfg, items[i])
    ensures Get(cfg, Set(cfg, s, items)) == Ok(view + ItemsMap(items))
    decreases |items|
  {
    if items == [] {
      SetNothing(cfg, s, items);
      MapFacts.UnionEmpty(view);
    } else {
      var n := |items| - 1;
      assert forall i :: 0 <= i < n ==> items[..n][i] == items[i];
      SetReadsBack(cfg, s, view, items[..n]);
      SetKeepsWellFormed(cfg, s, items[..n]);
      SetReadsBackStep(cfg, Set(cfg, s, items[..n]), view + ItemsMap(items[..n]), items[n]);
      SetSnoc(cfg, s, items);
      MapFacts.UnionUpdate(view, ItemsMap(items[..n]), items[n].key, items[n].value);
    }
  }

  /** One item written over a well-formed store changes Get's result at its key only. */
  lemma SetReadsBackStep(cfg: Config, prev: Store, view: map<string, Value>, it: Item)
    requires CodecSound(cfg) && CollisionFree(cfg)
    requires WellFormed(cfg, prev) && Get(cfg, prev) == Ok(view)
    requires Storable(cfg, it)
    ensures Get(cfg, prev + StageItem(cfg, it)) == Ok(view[it.key := it.value])
  {
    StageItemView(cfg, prev, it);
  }

  /** A value that fits is one verbatim entry under its own key and nothing else; it is
      classified as simple unless it is itself shaped like a manifest. */
  lemma SetFitsLayout(cfg: Config, s: Store, it: Item)
    requires !IsChunkKey(it.key)
    requires Fits(cfg, it.value)
    ensures Set(cfg, s, [it]) == s[it.key := it.value]
    ensures !IsManifest(it.value) ==> Classify(it.key, Set(cfg, s, [it])[it.key]) == Simple(it.value)
  {
    SetOne(cfg, s, it);
    assert StageItem(cfg, it) == map[it.key := it.value];
    MapFacts.UnionSingleton(s, it.key, it.value);
  }

  /** A value that does not fit is a manifest under its key listing its chunk keys, at
      least one and two or more when the ceiling is positive; the entries added are that
      key and those chunk keys, each in the store's namespace, each classified as a chunk
      holding its piece; the pieces join back to the encoding. */
  lemma SetChunkedLayout(cfg: Config, s: Store, it: Item)
    requires CollisionFree(cfg)
    requires !IsChunkKey(it.key)
    requires !Fits(cfg, it.value)
    ensures Classify(it.key, Set(cfg, s, [it])[it.key]) == Manifest(ChunkKeys(cfg, Pieces(cfg, it.value)))
    ensures 1 <= |Pieces(cfg, it.value)|
    ensures 0 < cfg.maxItemBytes ==> 2 <= |Pieces(cfg, it.value)|
    ensures Concat(Pieces(cfg, it.value)) == cfg.encode(it.value)
    ensures Set(cfg, s, [it]).Keys == s.Keys + {it.key} + (set c | c in ChunkKeys(cfg, Pieces(cfg, it.value)))
    ensures forall i :: 0 <= i < |Pieces(cfg, it.value)| ==>
      var c := ChunkKey(cfg, Pieces(cfg, it.value)[i]);
      && ChunkKeyPrefix(cfg) <= c
      && c in Set(cfg, s, [it])
      && Classify(c, Set(cfg, s, [it])[c]) == Chunk(Str(Pieces(cfg, it.value)[i]))
  {
    SetOne(cfg, s, it);
    ChunkedRecord(cfg, s, it);
    ChunkedEntries(cfg, s, it);
    var pieces := Pieces(cfg, it.value);
    assert 0 < cfg.maxItemBytes ==> 2 <= |pieces| by {
      assert 0 < cfg.maxItemBytes ==> PieceSize(cfg.maxItemBytes) <= cfg.maxItemBytes;
    }
  }

  /** The record a chunked value leaves under its own key is the manifest of its chunk keys. */
  lemma ChunkedRecord(cfg: Config, s: Store, it: Item)
    requires !IsChunkKey(it.key)
    requires !Fits(cfg, it.value)
    ensures it.key in s + StageItem(cfg, it)
    ensures Classify(it.key, (s + StageItem(cfg, it))[it.key]) == Manifest(ChunkKeys(cfg, Pieces(cfg, it.value)))
  {
    var cks := ChunkKeys(cfg, Pieces(cfg, it.value));
    StageItemKey(cfg, it);
    assert (s + StageItem(cfg, it))[it.key] == ManifestValue(cks);
    ParseManifestValue(cks);
  }

  /** The entries a chunked value adds are its key and its chunk keys, each chunk holding
      its piece. */
  lemma ChunkedEntries(cfg: Config, s: Store, it: Item)
    requires CollisionFree(cfg)
    requires !IsChunkKey(it.key)
    requires !Fits(cfg, it.value)
    ensures (s + StageItem(cfg, it)).Keys == s.Keys + {it.key} + (set c | c in ChunkKeys(cfg, Pieces(cfg, it.value)))
    ensures forall i :: 0 <= i < |Pieces(cfg, it.value)| ==>
      var c := ChunkKey(cfg, Pieces(cfg, it.value)[i]);
      && ChunkKeyPrefix(cfg) <= c
      && c in s + StageItem(cfg, it)
      && Classify(c, (s + StageItem(cfg, it))[c]) == Chunk(Str(Pieces(cfg, it.value)[i]))
  {
    var pieces := Pieces(cfg, it.value);
    var cks := ChunkKeys(cfg, pieces);
    StageItemChunkWrites(cfg, it);
    StageItemKey(cfg, it);
    ChunkedKeys(s, StageItem(cfg, it), it.key, ChunkWrites(cfg, pieces), cks);
    ChunkWritesContent(cfg, pieces);
    forall i | 0 <= i < |pieces| ensures cks[i] in s + StageItem(cfg, it) && (s + StageItem(cfg, it))[cks[i]] == Str(pieces[i]) {
      assert cks[i] in ChunkWrites(cfg, pieces);
    }
  }

  /** Adding a key and a batch of chunk entries adds exactly those keys. */
  lemma ChunkedKeys(s: Store, st: Store, k: string, w: Store, cks: seq<string>)
    requires k in st && st - {k} == w
    requires forall c :: c in w <==> c in cks
    ensures (s + st).Keys == s.Keys + {k} + (set c | c in cks)
  {
    assert forall c :: c in st <==> c == k || c in w;
  }

  /** At the ceiling a value is stored verbatim; one character more and it is chunked. */
  lemma ThresholdBoundary(cfg: Config, s: Store, it: Item)
    requires !IsChunkKey(it.key)
    ensures |cfg.encode(it.value)| == cfg.maxItemBytes ==> Set(cfg, s, [it])[it.key] == it.value
    ensures |cfg.encode(it.value)| == cfg.maxItemBytes + 1 ==> IsManifest(Set(cfg, s, [it])[it.key])
  {
    SetOne(cfg, s, it);
    StageItemKey(cfg, it);
    ParseManifestValue(ChunkKeys(cfg, Pieces(cfg, it.value)));
  }

  /** Deduplication: storing a value under a second key in the same batch adds only that
      key's entry, which is the same record as the first key's; no chunk is written twice. */
  lemma SameValueSharesChunks(cfg: Config, s: Store, a: string, b: string, v: Value)
    requires !IsChunkKey(a) && !IsChunkKey(b)
    ensures
      var once := Set(cfg, s, [Item(a, v)]);
      && Set(cfg, s, [Item(a, v), Item(b, v)]) == once[b := once[a]]
      && once[a] == StoredForm(cfg, v)
  {
    SetOne(cfg, s, Item(a, v));
    SetPair(cfg, s, Item(a, v), Item(b, v));
    StageItemKey(cfg, Item(a, v));
    RestageSameValue(cfg, s + StageItem(cfg, Item(a, v)), a, b, v);
  }

  /** Staging a value again under another key, over a store that already holds the first
      key's staged entries, only adds the second key with the first key's record. */
  lemma RestageSameValue(cfg: Config, once: Store, a: string, b: string, v: Value)
    requires !IsChunkKey(a) && !IsChunkKey(b)
    requires forall c :: c in StageItem(cfg, Item(a, v)) ==> c in once && once[c] == StageItem(cfg, Item(a, v))[c]
    ensures a in once && once + StageItem(cfg, Item(b, v)) == once[b := once[a]]
  {
    var sa := StageItem(cfg, Item(a, v));
    var sb := StageItem(cfg, Item(b, v));
    StageItemKey(cfg, Item(a, v));
    if Fits(cfg, v) {
      assert sb == map[b := v];
      MapFacts.UnionSingleton(once, b, v);
    } else {
      var w := ChunkWrites(cfg, Pieces(cfg, v));
      var m := ManifestValue(ChunkKeys(cfg, Pieces(cfg, v)));
      assert sa == w[a := m] && sb == w[b := m];
      forall c | c in w ensures c in once && once[c] == w[c] {
        assert c != a && c in sa;
      }
      MapFacts.UnionUpdate(once, w, b, m);
      MapFacts.UnionSubsumed(once, w);
    }
  }

  /** Content addressing is independent of the store instance and the logical key: two
      instances sharing namespace, ceiling, encoder and hash write the same record and the
      same chunk entries for the same value. */
  lemma SameChunksAcrossInstances(cfg1: Config, cfg2: Config, s1: Store, s2: Store, k1: string, k2: string, v: Value)
    requires cfg1.namespace == cfg2.namespace && cfg1.maxItemBytes == cfg2.maxItemBytes
    requires cfg1.encode == cfg2.encode && cfg1.hash == cfg2.hash
    requires !IsChunkKey(k1) && !IsChunkKey(k2)
    ensures Set(cfg1, s1, [Item(k1, v)])[k1] == Set(cfg2, s2, [Item(k2, v)])[k2]
    ensures StageItem(cfg1, Item(k1, v)) - {k1} == StageItem(cfg2, Item(k2, v)) - {k2}
  {
    SetOne(cfg1, s1, Item(k1, v));
    SetOne(cfg2, s2, Item(k2, v));
    StageItemKey(cfg1, Item(k1, v));
    StageItemKey(cfg2, Item(k2, v));
    SameStoredForm(cfg1, cfg2, v);
    SameChunkEntries(cfg1, cfg2, k1, k2, v);
  }

  /** The stored record of a value depends only on the ceiling, encoder, namespace and hash. */
  lemma SameStoredForm(cfg1: Config, cfg2: Config, v: Value)
    requires cfg1.namespace == cfg2.namespace && cfg1.maxItemBytes == cfg2.maxItemBytes
    requires cfg1.encode == cfg2.encode && cfg1.hash == cfg2.hash
    ensures StoredForm(cfg1, v) == StoredForm(cfg2, v)
  {
    assert Pieces(cfg2, v) == Pieces(cfg1, v);
    ChunkWritesSameAddress(cfg1, cfg2, Pieces(cfg1, v));
  }

  /** So do the chunk entries staged alongside it. */
  lemma SameChunkEntries(cfg1: Config, cfg2: Config, k1: string, k2: string, v: Value)
    requires cfg1.namespace == cfg2.namespace && cfg1.maxItemBytes == cfg2.maxItemBytes
    requires cfg1.encode == cfg2.encode && cfg1.hash == cfg2.hash
    requires !IsChunkKey(k1) && !IsChunkKey(k2)
    ensures StageItem(cfg1, Item(k1, v)) - {k1} == StageItem(cfg2, Item(k2, v)) - {k2}
  {
    var pieces := Pieces(cfg1, v);
    assert Pieces(cfg2, v) == pieces;
    assert Fits(cfg2, v) == Fits(cfg1, v);
    if Fits(cfg1, v) {
      MapFacts.UpdateRemove(map[], k1, v);
      MapFacts.UpdateRemove(map[], k2, v);
    } else {
      ChunkWritesSameAddress(cfg1, cfg2, pieces);
      StageItemChunkWrites(cfg1, Item(k1, v));
      StageItemChunkWrites(cfg2, Item(k2, v));
    }
  }

  /** Chunk entries depend only on the namespace and the hash of the store instance. */
  lemma {:induction false} ChunkWritesSameAddress(cfg1: Config, cfg2: Config, pieces: seq<string>)
    requires cfg1.namespace == cfg2.namespace && cfg1.hash == cfg2.hash
    ensures ChunkKeys(cfg1, pieces) == ChunkKeys(cfg2, pieces)
    ensures ChunkWrites(cfg1, pieces) == ChunkWrites(cfg2, pieces)
    decreases |pieces|
  {
    if pieces != [] {
      var n := |pieces| - 1;
      ChunkWritesSameAddress(cfg1, cfg2, pieces[..n]);
      assert ChunkKey(cfg1, pieces[n]) == ChunkKey(cfg2, pieces[n]);
    }
  }

  /** Set on keys that hold no manifest yet leaves no unreferenced chunk behind. */
  lemma {:induction false} SetKeepsNoGarbage(cfg: Config, s: Store, items: seq<Item>)
    requires NoGarbage(s)
    requires forall i :: 0 <= i < |items| ==> !IsChunkKey(items[i].key)
    requires forall i, j :: 0 <= i < j < |items| ==> items[i].key != items[j].key
    requires forall i :: 0 <= i < |items| && items[i].key in s ==> !IsManifest(s[items[i].key])
    ensures NoGarbage(Set(cfg, s, items))
    decreases |items|
  {
    if items == [] {
      assert Staged(cfg, items) == map[];
      MapFacts.UnionEmpty(s);
    } else {
      var n := |items| - 1;
      var init := items[..n];
      var last := items[n];
      assert forall i :: 0 <= i < n ==> init[i] == items[i];
      SetKeepsNoGarbage(cfg, s, init);
      var prev := Set(cfg, s, init);
      SetSnoc(cfg, s, items);
      KeyOutsideBatch(init, last.key);
      PreviousNotManifest(cfg, s, init, last.key);
      StageItemKeepsNoGarbage(cfg, prev, last);
    }
  }

  /** A key that no item of a batch carries is not among the batch's keys. */
  lemma {:induction false} KeyOutsideBatch(items: seq<Item>, k: string)
    requires forall i :: 0 <= i < |items| ==> items[i].key != k
    ensures k !in KeysOf(items)
    decreases |items|
  {
    if items != [] {
      var n := |items| - 1;
      assert forall i :: 0 <= i < n ==> items[..n][i] == items[i];
      KeyOutsideBatch(items[..n], k);
    }
  }

  /** A logical key outside a batch holds after Set what it held before, if anything. */
  lemma PreviousNotManifest(cfg: Config, s: Store, items: seq<Item>, k: string)
    requires !IsChunkKey(k) && k !in KeysOf(items)
    requires k in s ==> !IsManifest(s[k])
    ensures k in Set(cfg, s, items) ==> !IsManifest(Set(cfg, s, items)[k])
  {
  }

  /** Writing one item over a key that holds no manifest leaves every chunk listed. */
  lemma StageItemKeepsNoGarbage(cfg: Config, prev: Store, it: Item)
    requires NoGarbage(prev)
    requires !IsChunkKey(it.key)
    requires it.key in prev ==> !IsManifest(prev[it.key])
    ensures NoGarbage(prev + StageItem(cfg, it))
  {
    var st := StageItem(cfg, it);
    var r := prev + st;
    forall c | c in r && IsChunkKey(c) ensures Referenced(r, c) {
      if c in st {
        StagedChunkListed(cfg, prev, it, c);
      } else {
        OldChunkListed(prev, st, it.key, c);
      }
    }
  }

  /** A chunk staged for an item is listed by the manifest staged with it. */
  lemma StagedChunkListed(cfg: Config, prev: Store, it: Item, c: string)
    requires !IsChunkKey(it.key)
    requires c in StageItem(cfg, it) && c != it.key
    ensures Referenced(prev + StageItem(cfg, it), c)
  {
    var pieces := Pieces(cfg, it.value);
    var cks := ChunkKeys(cfg, pieces);
    assert !Fits(cfg, it.value);
    StageItemChunkWrites(cfg, it);
    assert c in ChunkWrites(cfg, pieces);
    ParseManifestValue(cks);
    StageItemKey(cfg, it);
    assert (prev + StageItem(cfg, it))[it.key] == ManifestValue(cks);
  }

  /** A chunk listed before a write stays listed when the write adds only one logical key,
      which held no manifest, and chunk keys. */
  lemma OldChunkListed(prev: Store, st: Store, k: string, c: string)
    requires c in prev && Referenced(prev, c)
    requires forall m :: m in st && m != k ==> IsChunkKey(m)
    requires k in prev ==> !IsManifest(prev[k])
    ensures Referenced(prev + st, c)
  {
    var m :| m in prev && !IsChunkKey(m) && c in Refs(prev[m]);
    assert m != k;
    assert m !in st;
    assert m in prev + st && (prev + st)[m] == prev[m];
  }

  /** The known sharp edge of classification: a value that fits but is itself shaped like
      a manifest is read back as one, so if it lists a chunk the store lacks, Get fails. */
  lemma ManifestShapedValueIsMisread(cfg: Config, s: Store, k: string, v: Value, c: string)
    requires !IsChunkKey(k) && Fits(cfg, v) && IsManifest(v)
    requires c in Refs(v) && c !in Set(cfg, s, [Item(k, v)])
    ensures Classify(k, Set(cfg, s, [Item(k, v)])[k]) == Manifest(ParseManifest(v).value)
    ensures Get(cfg, Set(cfg, s, [Item(k, v)])).Err?
  {
    var r := Set(cfg, s, [Item(k, v)]);
    assert Staged(cfg, [Item(k, v)]) == StageItem(cfg, Item(k, v));
    assert r[k] == v;
    var ks := ParseManifest(v).value;
    var i :| 0 <= i < |ks| && ks[i] == c;
    assert ReadEntry(cfg, r, k).Err?;
  }
}
