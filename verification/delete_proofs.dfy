/** What Delete does to the view Get gives, to the raw layout, and to the invariants. */
module DeleteProofs {
  import opened Outcomes
  import opened Values
  import opened Entries
  import opened BigStorage
  import opened StoreInvariants
  import MapFacts

  /** The requested keys are all logical keys. */
  ghost predicate LogicalKeys(keys: seq<string>) {
    forall k :: k in keys ==> !IsChunkKey(k)
  }

  /** In a well-formed store no manifest lists a logical key, so deletion never removes a
      logical key that was not asked for. */
  lemma LogicalKeyNotListed(cfg: Config, s: Store, keys: seq<string>, k: string)
    requires WellFormed(cfg, s)
    requires !IsChunkKey(k)
    ensures !ReferencedByDeleted(s, keys, k)
  {
    forall d | d in keys && d in s && !IsChunkKey(d) ensures k !in Refs(s[d]) {
      assert KeyIntact(cfg, s, d);
    }
  }

  /** Shared-chunk retention: a logical key that is not deleted keeps its entry and every
      chunk it lists, so it reads exactly as before. */
  lemma DeleteKeepsShared(cfg: Config, s: Store, keys: seq<string>, k: string)
    requires WellFormed(cfg, s)
    requires LogicalKeys(keys)
    requires k in s && !IsChunkKey(k) && k !in keys
    ensures k in Delete(s, keys) && Delete(s, keys)[k] == s[k]
    ensures forall c :: c in s && c in Refs(s[k]) ==> c in Delete(s, keys)
    ensures ReadEntry(cfg, Delete(s, keys), k) == ReadEntry(cfg, s, k)
    ensures ReadEntry(cfg, Delete(s, keys), k).Ok?
  {
    var r := Delete(s, keys);
    LogicalKeyNotListed(cfg, s, keys, k);
    assert KeyIntact(cfg, s, k);
    forall c | c in s && c in Refs(s[k]) ensures c in r {
      assert IsChunkKey(c);
      assert c !in keys;
      assert ReferencedBySurvivor(s, keys, c);
    }
    ReadEntryKept(cfg, s, r, k);
  }

  /** One surviving entry stays intact. */
  lemma DeleteKeepsIntact(cfg: Config, s: Store, keys: seq<string>, k: string)
    requires WellFormed(cfg, s)
    requires LogicalKeys(keys)
    requires k in Delete(s, keys)
    ensures KeyIntact(cfg, Delete(s, keys), k)
  {
    var r := Delete(s, keys);
    assert KeyIntact(cfg, s, k);
    if !IsChunkKey(k) {
      DeleteKeepsShared(cfg, s, keys, k);
    }
  }

  /** Delete keeps a well-formed store well formed, and afterwards Get returns the previous
      contents without the deleted keys. */
  lemma DeleteView(cfg: Config, s: Store, keys: seq<string>)
    requires WellFormed(cfg, s)
    requires LogicalKeys(keys)
    ensures WellFormed(cfg, Delete(s, keys))
    ensures Get(cfg, Delete(s, keys)) == Ok(Get(cfg, s).value - (set k | k in keys))
  {
    var r := Delete(s, keys);
    forall k | k in r ensures KeyIntact(cfg, r, k) {
      DeleteKeepsIntact(cfg, s, keys, k);
    }
    WellFormedGet(cfg, s);
    WellFormedGet(cfg, r);
    var before := Get(cfg, s).value;
    var after := Get(cfg, r).value;
    var wanted := before - (set k | k in keys);
    forall j ensures j in after <==> j in wanted {
      if j in s && !IsChunkKey(j) && j !in keys {
        DeleteKeepsShared(cfg, s, keys, j);
      }
    }
    forall j | j in after ensures after[j] == wanted[j] {
      DeleteKeepsShared(cfg, s, keys, j);
    }
    MapFacts.Extensionality(after, wanted);
  }

  /** Exactly the survivors remain: the logical keys not asked for, and the chunks that a
      surviving manifest lists. A chunk that only deleted manifests listed is reclaimed,
      and no chunk is left without a manifest listing it. */
  lemma DeleteReclaims(cfg: Config, s: Store, keys: seq<string>)
    requires WellFormed(cfg, s) && NoGarbage(s)
    requires LogicalKeys(keys)
    ensures forall k :: !IsChunkKey(k) ==> (k in Delete(s, keys) <==> k in s && k !in keys)
    ensures forall c :: c in s && IsChunkKey(c) ==>
      (c in Delete(s, keys) <==> ReferencedBySurvivor(s, keys, c))
    ensures NoGarbage(Delete(s, keys))
  {
    var r := Delete(s, keys);
    forall k | !IsChunkKey(k) && k in s && k !in keys ensures k in r {
      LogicalKeyNotListed(cfg, s, keys, k);
    }
    forall c | c in s && IsChunkKey(c) ensures c in r <==> ReferencedBySurvivor(s, keys, c) {
      assert c !in keys;
      assert Referenced(s, c);
      var m :| m in s && !IsChunkKey(m) && c in Refs(s[m]);
      assert m in keys ==> ReferencedByDeleted(s, keys, c);
    }
    forall c | c in r && IsChunkKey(c) ensures Referenced(r, c) {
      var m :| m in s && m !in keys && !IsChunkKey(m) && c in Refs(s[m]);
      assert m in r;
    }
  }

  /** When none of the deleted keys holds a manifest, Delete removes exactly those keys. */
  lemma DeleteSimpleOnly(s: Store, keys: seq<string>)
    requires forall k :: k in keys && k in s ==> !IsManifest(s[k])
    ensures Delete(s, keys) == s - (set k | k in keys)
  {
    var r := Delete(s, keys);
    var wanted := s - (set k | k in keys);
    forall k | k in s && k !in keys ensures !ReferencedByDeleted(s, keys, k) {
      forall d | d in keys && d in s ensures Refs(s[d]) == {} {
      }
    }
    MapFacts.Extensionality(r, wanted);
  }

  /** Full reclamation: deleting every logical key of a store without garbage leaves
      nothing behind, not even a chunk. */
  lemma DeleteAllEmpties(cfg: Config, s: Store, keys: seq<string>)
    requires WellFormed(cfg, s) && NoGarbage(s)
    requires LogicalKeys(keys)
    requires forall k :: k in s && !IsChunkKey(k) ==> k in keys
    ensures Delete(s, keys) == map[]
  {
    DeleteReclaims(cfg, s, keys);
    var r := Delete(s, keys);
    forall c ensures !ReferencedBySurvivor(s, keys, c) {
    }
    forall k ensures k !in r {
    }
    MapFacts.Extensionality(r, map[]);
  }
}
