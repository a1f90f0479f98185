/** Store invariants and the facts about reading that the Set and Delete proofs share. */
module StoreInvariants {
  import opened Outcomes
  import opened Values
  import opened Entries
  import opened Chunking
  import opened BigStorage

  /** One entry is intact: a chunk entry is stored under its own content address; a
      logical entry lists only chunk keys and reads back without error. */
  ghost predicate KeyIntact(cfg: Config, s: Store, k: string)
    requires k in s
  {
    if IsChunkKey(k) then ChunkIntact(cfg, k, s[k])
    else (forall c :: c in Refs(s[k]) ==> IsChunkKey(c)) && ReadEntry(cfg, s, k).Ok?
  }

  /** Every entry of the store is intact. */
  ghost predicate WellFormed(cfg: Config, s: Store) {
    forall k :: k in s ==> KeyIntact(cfg, s, k)
  }

  /** `c` is listed by some manifest in the store. */
  ghost predicate Referenced(s: Store, c: string) {
    exists m :: m in s && !IsChunkKey(m) && c in Refs(s[m])
  }

  /** Every chunk entry is listed by some manifest. */
  ghost predicate NoGarbage(s: Store) {
    forall c :: c in s && IsChunkKey(c) ==> Referenced(s, c)
  }

  /** The empty backend satisfies both invariants and reads as the empty map. */
  lemma EmptyStore(cfg: Config)
    ensures WellFormed(cfg, map[]) && NoGarbage(map[])
    ensures Get(cfg, map[]) == Ok(map[])
  {
  }

  /** Equal chunk keys within one store instance mean equal chunk contents. */
  lemma ChunkKeyInjective(cfg: Config, p: string, q: string)
    requires CollisionFree(cfg)
    requires ChunkKey(cfg, p) == ChunkKey(cfg, q)
    ensures p == q
  {
    var pre := ChunkKeyPrefix(cfg);
    assert cfg.hash(p) == ChunkKey(cfg, p)[|pre|..];
    assert cfg.hash(q) == ChunkKey(cfg, q)[|pre|..];
  }

  /** Every chunk staged for a list of pieces holds that piece. */
  lemma ChunkWritesContent(cfg: Config, pieces: seq<string>)
    requires CollisionFree(cfg)
    ensures forall i :: 0 <= i < |pieces| ==>
      ChunkKey(cfg, pieces[i]) in ChunkWrites(cfg, pieces)
      && ChunkWrites(cfg, pieces)[ChunkKey(cfg, pieces[i])] == Str(pieces[i])
  {
    var w := ChunkWrites(cfg, pieces);
    var cks := ChunkKeys(cfg, pieces);
    forall i | 0 <= i < |pieces|
      ensures ChunkKey(cfg, pieces[i]) in w && w[ChunkKey(cfg, pieces[i])] == Str(pieces[i])
    {
      var c := ChunkKey(cfg, pieces[i]);
      assert cks[i] == c;
      assert c in w;
      ChunkKeyInjective(cfg, pieces[i], w[c].s);
    }
  }

  /** A manifest whose listed chunks hold the given pieces reassembles to their join. */
  lemma {:induction false} ReassemblePieces(s: Store, chunkKeys: seq<string>, pieces: seq<string>)
    requires |chunkKeys| == |pieces|
    requires forall i :: 0 <= i < |chunkKeys| ==> chunkKeys[i] in s && s[chunkKeys[i]] == Str(pieces[i])
    ensures Reassemble(s, chunkKeys) == Ok(Concat(pieces))
    decreases |chunkKeys|
  {
    if chunkKeys != [] {
      ReassemblePieces(s, chunkKeys[1..], pieces[1..]);
    }
  }

  /** Reassembly only looks at the listed chunks. */
  lemma {:induction false} ReassembleStable(s: Store, s': Store, chunkKeys: seq<string>)
    requires forall c :: c in chunkKeys ==> (c in s <==> c in s') && (c in s ==> s'[c] == s[c])
    ensures Reassemble(s', chunkKeys) == Reassemble(s, chunkKeys)
    decreases |chunkKeys|
  {
    if chunkKeys != [] {
      assert chunkKeys[0] in chunkKeys;
      assert forall c :: c in chunkKeys[1..] ==> c in chunkKeys;
      ReassembleStable(s, s', chunkKeys[1..]);
    }
  }

  /** A manifest that reads back lists only chunks present in the store. */
  lemma ReadEntryRefsPresent(cfg: Config, s: Store, k: string)
    requires k in s && ReadEntry(cfg, s, k).Ok?
    ensures forall c :: c in Refs(s[k]) ==> c in s
  {
    if IsManifest(s[k]) {
      var ks := ParseManifest(s[k]).value;
      forall c | c in Refs(s[k]) ensures c in s {
        var i :| 0 <= i < |ks| && ks[i] == c;
      }
    }
  }

  /** Reading a key depends only on its own entry and the chunks that entry lists. */
  lemma ReadEntryStable(cfg: Config, s: Store, s': Store, k: string)
    requires k in s && k in s' && s'[k] == s[k]
    requires forall c :: c in Refs(s[k]) ==> (c in s <==> c in s') && (c in s ==> s'[c] == s[c])
    ensures ReadEntry(cfg, s', k) == ReadEntry(cfg, s, k)
  {
    if IsManifest(s[k]) {
      ReassembleStable(s, s', ParseManifest(s[k]).value);
    }
  }

  /** In a well-formed store a surviving key reads the same after any change that keeps
      its entry and the chunk entries it lists. */
  lemma ReadEntryKept(cfg: Config, s: Store, s': Store, k: string)
    requires WellFormed(cfg, s)
    requires k in s && !IsChunkKey(k) && k in s' && s'[k] == s[k]
    requires forall c :: c in s && IsChunkKey(c) && c in Refs(s[k]) ==> c in s' && s'[c] == s[c]
    ensures ReadEntry(cfg, s', k) == ReadEntry(cfg, s, k)
    ensures ReadEntry(cfg, s', k).Ok?
  {
    ReadEntryRefsPresent(cfg, s, k);
    ReadEntryStable(cfg, s, s', k);
  }

  /** Get succeeds on a well-formed store. */
  lemma WellFormedGet(cfg: Config, s: Store)
    requires WellFormed(cfg, s)
    ensures Get(cfg, s).Ok?
  {
    assert forall k :: k in s && !IsChunkKey(k) ==> ReadEntry(cfg, s, k).Ok? by {
      forall k | k in s && !IsChunkKey(k) ensures ReadEntry(cfg, s, k).Ok? {
        assert KeyIntact(cfg, s, k);
      }
    }
  }
}
