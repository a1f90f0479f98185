/** The overlay store: Set, Get and Delete over a size-limited key-value backend.
    Values whose encoding fits the per-item ceiling are stored verbatim; larger ones are
    split into content-addressed chunks listed, in order, by a manifest under the logical
    key. Delete reclaims every chunk that only deleted manifests referenced. Each call is
    one atomic transition of the backend map. */
module BigStorage {
  import opened Outcomes
  import opened Values
  import opened Entries
  import opened Chunking

  /** The backend: raw values by key. */
  type Store = map<string, Value>

  const DefaultMaxItemBytes: nat := 1024

  /** The fixed namespace embedded in every chunk key of the store. */
  const DefaultNamespace: string := "3cc36853-b864-4122-beaa-516aa24448f6"

  /** One store instance: the per-item ceiling, the chunk namespace, the canonical
      encoder and decoder of values, and the content hash with its text encoding. */
  datatype Config = Config(
    maxItemBytes: nat,
    namespace: string,
    encode: Value -> string,
    decode: string -> Option<Value>,
    hash: string -> string)

  /** Decoding undoes encoding. */
  ghost predicate CodecSound(cfg: Config) {
    forall v :: cfg.decode(cfg.encode(v)) == Some(v)
  }

  /** Distinct chunk contents have distinct digests. */
  ghost predicate CollisionFree(cfg: Config) {
    forall p, q :: cfg.hash(p) == cfg.hash(q) ==> p == q
  }

  /** One logical key and the value to store under it. */
  datatype Item = Item(key: string, value: Value)

  /** The keys a batch writes. */
  function KeysOf(items: seq<Item>): (r: set<string>)
    ensures forall i :: 0 <= i < |items| ==> items[i].key in r
    decreases |items|
  {
    if items == [] then {} else KeysOf(items[..|items| - 1]) + {items[|items| - 1].key}
  }

  /** Why reading one logical key failed. */
  datatype ReadError =
    | MissingChunk(chunk: string)
    | MalformedChunk(chunk: string)
    | Undecodable

  /** Get fails as a whole, reporting every logical key whose read failed. */
  datatype GetError = Corrupt(failures: map<string, ReadError>)

  /** The prefix shared by every chunk key of one store instance. */
  function ChunkKeyPrefix(cfg: Config): string {
    ChunkPrefix + cfg.namespace + ":"
  }

  /** The content address of a chunk. */
  function ChunkKey(cfg: Config, piece: string): (k: string)
    ensures ChunkKeyPrefix(cfg) <= k
    ensures IsChunkKey(k)
  {
    var k := ChunkKeyPrefix(cfg) + cfg.hash(piece);
    assert k[..|ChunkPrefix|] == ChunkPrefix;
    k
  }

  function ChunkKeys(cfg: Config, pieces: seq<string>): (r: seq<string>)
    ensures |r| == |pieces|
    ensures forall i :: 0 <= i < |r| ==> r[i] == ChunkKey(cfg, pieces[i])
    decreases |pieces|
  {
    if pieces == [] then []
    else ChunkKeys(cfg, pieces[..|pieces| - 1]) + [ChunkKey(cfg, pieces[|pieces| - 1])]
  }

  /** True when the encoding fits the per-item ceiling, so the value is stored verbatim. */
  predicate Fits(cfg: Config, v: Value) {
    |cfg.encode(v)| <= cfg.maxItemBytes
  }

  /** The pieces an oversized value is stored as. */
  function Pieces(cfg: Config, v: Value): seq<string> {
    Split(cfg.encode(v), PieceSize(cfg.maxItemBytes))
  }

  /** A chunk entry is intact when it holds a string stored under that string's address. */
  ghost predicate ChunkIntact(cfg: Config, k: string, v: Value) {
    v.Str? && k == ChunkKey(cfg, v.s)
  }

  /** The chunk entries staged for a list of pieces, one per distinct address. */
  function ChunkWrites(cfg: Config, pieces: seq<string>): (r: map<string, Value>)
    ensures forall c :: c in r <==> c in ChunkKeys(cfg, pieces)
    ensures forall c :: c in r ==> IsChunkKey(c) && ChunkIntact(cfg, c, r[c])
    decreases |pieces|
  {
    if pieces == [] then map[]
    else
      var n := |pieces| - 1;
      ChunkWrites(cfg, pieces[..n])[ChunkKey(cfg, pieces[n]) := Str(pieces[n])]
  }

  /** All writes staged for one item: a value that fits is its key's only write; a larger
      value writes, besides its key, one intact chunk per piece, and its key then reads as
      a manifest listing those chunks in order. */
  function StageItem(cfg: Config, it: Item): (r: map<string, Value>)
    ensures it.key in r
    ensures Fits(cfg, it.value) ==> r.Keys == {it.key} && r[it.key] == it.value
    ensures !Fits(cfg, it.value) ==> ParseManifest(r[it.key]) == Some(ChunkKeys(cfg, Pieces(cfg, it.value)))
    ensures !Fits(cfg, it.value) ==> forall c :: c in ChunkKeys(cfg, Pieces(cfg, it.value)) ==> c in r
    ensures !Fits(cfg, it.value) ==> forall c :: c in r ==> c == it.key || c in ChunkKeys(cfg, Pieces(cfg, it.value))
    ensures forall c :: c in r && c != it.key ==> IsChunkKey(c) && ChunkIntact(cfg, c, r[c])
  {
    if Fits(cfg, it.value) then map[it.key := it.value]
    else
      var pieces := Pieces(cfg, it.value);
      var chunkKeys := ChunkKeys(cfg, pieces);
      ParseManifestValue(chunkKeys);
      ChunkWrites(cfg, pieces)[it.key := ManifestValue(chunkKeys)]
  }

  /** All writes staged for a batch; a later item's write to the same key wins. */
  function Staged(cfg: Config, items: seq<Item>): (r: map<string, Value>)
    ensures forall i :: 0 <= i < |items| ==> items[i].key in r
    ensures forall k :: k in r ==> IsChunkKey(k) || k in KeysOf(items)
    decreases |items|
  {
    if items == [] then map[]
    else
      var n := |items| - 1;
      var prev := Staged(cfg, items[..n]);
      var last := StageItem(cfg, items[n]);
      assert forall i :: 0 <= i < n ==> items[..n][i] == items[i];
      assert KeysOf(items) == KeysOf(items[..n]) + {items[n].key};
      prev + last
  }

  /** Set: one batched write of every staged entry. Nothing is ever removed, and only the
      requested keys and chunk keys are written. */
  function Set(cfg: Config, s: Store, items: seq<Item>): (r: Store)
    ensures s.Keys <= r.Keys
    ensures forall i :: 0 <= i < |items| ==> items[i].key in r
    ensures forall k :: k in r && k !in s ==> IsChunkKey(k) || k in KeysOf(items)
    ensures forall k :: k in s && !IsChunkKey(k) && k !in KeysOf(items) ==> r[k] == s[k]
  {
    s + Staged(cfg, items)
  }

  /** The chunk contents a manifest lists, joined in order; fails on the first listed
      chunk that is absent or not a string. */
  function Reassemble(s: Store, chunkKeys: seq<string>): (r: Result<string, ReadError>)
    ensures r.Ok? <==> forall i :: 0 <= i < |chunkKeys| ==> chunkKeys[i] in s && s[chunkKeys[i]].Str?
    ensures r.Err? ==> exists i :: 0 <= i < |chunkKeys| && r.error in {MissingChunk(chunkKeys[i]), MalformedChunk(chunkKeys[i])}
  {
    if chunkKeys == [] then Ok([])
    else if chunkKeys[0] !in s then Err(MissingChunk(chunkKeys[0]))
    else if !s[chunkKeys[0]].Str? then Err(MalformedChunk(chunkKeys[0]))
    else match Reassemble(s, chunkKeys[1..])
      case Err(e) => Err(e)
      case Ok(rest) => Ok(s[chunkKeys[0]].s + rest)
  }

  /** The logical value under one key: a manifest is reassembled and decoded, any other
      entry is returned as stored. */
  function ReadEntry(cfg: Config, s: Store, k: string): (r: Result<Value, ReadError>)
    requires k in s
    ensures !IsManifest(s[k]) ==> r == Ok(s[k])
    ensures IsManifest(s[k]) && r.Ok? ==> Reassemble(s, ParseManifest(s[k]).value).Ok?
  {
    match ParseManifest(s[k])
    case None => Ok(s[k])
    case Some(chunkKeys) =>
      match Reassemble(s, chunkKeys)
      case Err(e) => Err(e)
      case Ok(text) =>
        match cfg.decode(text)
        case None => Err(Undecodable)
        case Some(v) => Ok(v)
  }

  /** Get: every logical entry of the store, chunk entries left out; fails as a whole if
      any logical key cannot be read. */
  function Get(cfg: Config, s: Store): (r: Result<map<string, Value>, GetError>)
    ensures r.Ok? <==> forall k :: k in s && !IsChunkKey(k) ==> ReadEntry(cfg, s, k).Ok?
    ensures r.Ok? ==> forall k :: k in r.value <==> k in s && !IsChunkKey(k)
    ensures r.Ok? ==> forall k :: k in r.value ==> r.value[k] == ReadEntry(cfg, s, k).value
    ensures r.Err? ==> forall k :: k in r.error.failures ==> k in s && !IsChunkKey(k) && ReadEntry(cfg, s, k).Err?
  {
    var failures := map k | k in s && !IsChunkKey(k) && ReadEntry(cfg, s, k).Err? :: ReadEntry(cfg, s, k).error;
    if failures == map[] then
      assert forall k :: k in s && !IsChunkKey(k) ==> ReadEntry(cfg, s, k).Ok? by {
        forall k | k in s && !IsChunkKey(k) && ReadEntry(cfg, s, k).Err? ensures k in failures { }
      }
      Ok(map k | k in s && !IsChunkKey(k) :: ReadEntry(cfg, s, k).value)
    else
      Err(Corrupt(failures))
  }

  /** The chunk keys referenced by the manifests among the given keys. */
  function RefsOf(s: Store, keys: set<string>): set<string> {
    set k, c | k in keys && k in s && !IsChunkKey(k) && c in Refs(s[k]) :: c
  }

  /** `c` is listed by a manifest among the keys being deleted. */
  ghost predicate ReferencedByDeleted(s: Store, keys: seq<string>, c: string) {
    exists d :: d in keys && d in s && !IsChunkKey(d) && c in Refs(s[d])
  }

  /** `c` is listed by a manifest that survives the deletion of `keys`. */
  ghost predicate ReferencedBySurvivor(s: Store, keys: seq<string>, c: string) {
    exists m :: m in s && m !in keys && !IsChunkKey(m) && c in Refs(s[m])
  }

  /** Delete: removes the requested keys, and every chunk a deleted manifest listed that no
      surviving manifest lists. Nothing else is removed and no entry is changed. */
  function Delete(s: Store, keys: seq<string>): (r: Store)
    ensures forall k :: k in r ==> k in s && r[k] == s[k]
    ensures forall k :: k in keys ==> k !in r
    ensures forall k :: k in s && k !in keys ==>
      (k in r <==> !ReferencedByDeleted(s, keys, k) || ReferencedBySurvivor(s, keys, k))
  {
    var doomed := set k | k in keys;
    var candidates := RefsOf(s, doomed);
    var live := RefsOf(s, s.Keys - doomed);
    s - (doomed + (candidates - live))
  }
}
