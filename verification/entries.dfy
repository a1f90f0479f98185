/** The three kinds of raw entry the overlay store keeps in its backend, the manifest
    record that lists the chunks of an oversized value, and the classification of a raw
    entry read back from the backend. */
module Entries {
  import opened Outcomes
  import opened Values

  /** Every chunk key starts with this prefix; no other key is treated as a chunk. */
  const ChunkPrefix: string := "chunk-"

  /** Field names of the manifest record. */
  const ValidField: string := "valid"
  const ChunksField: string := "chunks"

  predicate IsChunkKey(k: string) {
    |ChunkPrefix| <= |k| && k[..|ChunkPrefix|] == ChunkPrefix
  }

  /** A raw entry, as the classification step sees it. */
  datatype StoredEntry =
    | Simple(value: Value)
    | Manifest(chunks: seq<string>)
    | Chunk(content: Value)

  /** The list of string values holding the given keys, in order. */
  function StrValues(ks: seq<string>): (r: seq<Value>)
    ensures |r| == |ks|
    ensures forall i :: 0 <= i < |ks| ==> r[i] == Str(ks[i])
  {
    seq(|ks|, i requires 0 <= i < |ks| => Str(ks[i]))
  }

  /** The strings of a list, if every element of it is a string. */
  function Strings(items: seq<Value>): (r: Option<seq<string>>)
    ensures r.Some? <==> forall i :: 0 <= i < |items| ==> items[i].Str?
    ensures r.Some? ==> |r.value| == |items|
    ensures r.Some? ==> forall i :: 0 <= i < |items| ==> r.value[i] == items[i].s
  {
    if items == [] then Some([])
    else if !items[0].Str? then None
    else match Strings(items[1..])
      case None => None
      case Some(rest) => Some([items[0].s] + rest)
  }

  /** The record written under a logical key whose value was split into chunks. */
  function ManifestValue(chunkKeys: seq<string>): Value {
    Object(map[ValidField := Bool(true), ChunksField := List(StrValues(chunkKeys))])
  }

  /** Reads a raw value as a manifest: it must be a record whose valid marker is true and
      whose chunk list holds only strings. Other fields are ignored. */
  function ParseManifest(v: Value): (r: Option<seq<string>>)
    ensures r.Some? ==> v.Object? && ValidField in v.fields && v.fields[ValidField] == Bool(true)
    ensures r.Some? ==> ChunksField in v.fields && v.fields[ChunksField].List?
    ensures r.Some? ==> |r.value| == |v.fields[ChunksField].items|
    ensures r.Some? ==> forall i :: 0 <= i < |r.value| ==> v.fields[ChunksField].items[i] == Str(r.value[i])
    ensures (v.Object? && ValidField in v.fields && v.fields[ValidField] == Bool(true)
             && ChunksField in v.fields && v.fields[ChunksField].List?
             && forall i :: 0 <= i < |v.fields[ChunksField].items| ==> v.fields[ChunksField].items[i].Str?)
            ==> r.Some?
  {
    if v.Object? && ValidField in v.fields && v.fields[ValidField] == Bool(true)
       && ChunksField in v.fields && v.fields[ChunksField].List?
    then Strings(v.fields[ChunksField].items)
    else None
  }

  predicate IsManifest(v: Value) {
    ParseManifest(v).Some?
  }

  /** The chunk keys a raw value references, if it is read as a manifest. */
  function Refs(v: Value): (r: set<string>)
    ensures !IsManifest(v) ==> r == {}
    ensures IsManifest(v) ==> forall c :: c in r <==> c in ParseManifest(v).value
  {
    match ParseManifest(v)
    case None => {}
    case Some(ks) => set c | c in ks
  }

  /** Classification of a raw entry: by key prefix first, then by manifest validity,
      and otherwise a simple value. */
  function Classify(k: string, v: Value): (r: StoredEntry)
    ensures r.Chunk? <==> IsChunkKey(k)
    ensures r.Manifest? <==> !IsChunkKey(k) && IsManifest(v)
    ensures r.Simple? <==> !IsChunkKey(k) && !IsManifest(v)
    ensures r.Manifest? ==> r.chunks == ParseManifest(v).value
    ensures !r.Manifest? ==> r == Simple(v) || r == Chunk(v)
  {
    if IsChunkKey(k) then Chunk(v)
    else match ParseManifest(v)
      case Some(ks) => Manifest(ks)
      case None => Simple(v)
  }

  /** A manifest record reads back as exactly the chunk list it was built from. */
  lemma ParseManifestValue(chunkKeys: seq<string>)
    ensures ParseManifest(ManifestValue(chunkKeys)) == Some(chunkKeys)
    ensures Refs(ManifestValue(chunkKeys)) == set c | c in chunkKeys
  {
    var v := ManifestValue(chunkKeys);
    assert ValidField != ChunksField;
    assert v.fields[ChunksField] == List(StrValues(chunkKeys));
    var r := Strings(StrValues(chunkKeys));
    assert r.value == chunkKeys;
  }
}
