# BigStorage: a chunking, content-addressing overlay store

`BigStorage` sits on a key-value backend that limits how large one item may be, and offers
the same `Set`/`Get`/`Delete` interface as that backend.

- **Set.** A value whose encoding fits the ceiling `maxItemBytes` is written verbatim under
  its own key; this is a *simple* entry. A larger value has its encoding split into pieces.
  Each piece is written under a content-derived chunk key,
  `"chunk-" + namespace + ":" + hash(piece)`. The logical key then receives a *manifest*:
  a record marked valid that lists the chunk keys in order.
- **Get.** Reads every entry. A manifest is resolved by joining its chunks in order and
  decoding the result.
- **Delete.** Removes the requested keys. It also removes every chunk that a deleted
  manifest listed and no surviving manifest lists.

Raw entries are classified in a fixed order. An entry is a chunk if its key carries the
chunk prefix. Otherwise it is a manifest if its value parses as a valid manifest.
Otherwise it is simple.

The model is functional. The backend is an immutable `map<string, Value>`, where `Value`
is a JSON-like datatype. Set, Get and Delete are pure functions over that map. The
encoder, decoder and hash are fields of a `Config` value, and lemmas assume about them
only what they need:

- `CodecSound`: decoding an encoding gives the value back.
- `CollisionFree`: the hash is injective.

Two store invariants carry the proofs:

- `WellFormed`: every chunk entry sits at its own content address, and every logical entry
  lists only chunk keys and reads back without error.
- `NoGarbage`: every chunk entry is listed by some manifest.

Files:

- `outcomes.dfy`: `Option` and `Result`.
- `values.dfy`: the value datatype.
- `entries.dfy`: manifests and raw-entry classification.
- `chunking.dfy`: splitting an encoding into pieces and joining them back.
- `bigstorage.dfy`: Set, Get and Delete.
- `mapfacts.dfy`: generic map identities.
- `invariants.dfy`: the store invariants and reading facts.
- `set_proofs.dfy`: what Set does.
- `delete_proofs.dfy`: what Delete does.
- `scenarios.dfy`: the test scenarios, stated for every input of the same shape.

The source that defines the `BigStorage` type is not part of this model. The behaviour
modelled is the one `go/chrome/bigstorage_test.go` exercises.
`PersistentStore.Get` takes no keys (bigstorage_test.go:34), so `Get` returns every
logical key with its value.

## Model

| member | source | states |
|---|---|---|
| Entries.Classify | go/chrome/bigstorage_test.go:49-67 | an entry is a chunk exactly when its key has the chunk prefix; otherwise a manifest exactly when its value parses as a valid manifest, with the parsed chunk list; otherwise simple |
| Entries.ParseManifest | go/chrome/bigstorage_test.go:41-47 | a value parses as a manifest exactly when it is a record whose validity flag is true and whose chunk list is a list of strings; it then yields exactly those strings, in order |
| Entries.ParseManifestValue | go/chrome/bigstorage_test.go:128-129 | the manifest Set writes for a list of chunk keys parses as a valid manifest listing exactly those keys |
| Chunking.Split | go/chrome/bigstorage_test.go:112-127 | an encoding splits into at least one piece, at least two when it exceeds the piece size; each piece is no longer than the piece size and nonempty when the encoding is; the pieces join back to the encoding |
| BigStorage.ChunkKey | go/chrome/bigstorage_test.go:123-127 | a chunk key starts with the chunk prefix and the store's namespace, so it is classified as a chunk |
| BigStorage.StageItem | go/chrome/bigstorage_test.go:101-130 | a value that fits is the only write, under its own key, and unchanged; a larger value's key holds a manifest that lists its chunk keys in order; every listed chunk key is written; every other write is a chunk key holding an intact chunk |
| BigStorage.Set | go/chrome/bigstorage_test.go:149-152 | Set keeps every existing key, writes every key of the batch, adds no key other than the batch's keys and chunk keys, and leaves other logical entries unchanged |
| BigStorage.Reassemble | go/chrome/bigstorage_test.go:131-134 | joining a manifest's chunks succeeds exactly when every listed chunk is present and holds text; otherwise it names a missing or malformed listed chunk |
| BigStorage.ReadEntry | go/chrome/bigstorage_test.go:158-161 | a non-manifest entry reads as itself; a manifest reads successfully only when its chunks reassemble |
| BigStorage.Get | go/chrome/bigstorage_test.go:31-39 | Get succeeds exactly when every logical key reads back, and then returns exactly the logical keys with their read values; a failure names only logical keys that fail to read |
| BigStorage.Delete | go/chrome/bigstorage_test.go:262-265 | Delete removes every requested key and changes no entry; a key not requested survives exactly when no deleted manifest lists it or some surviving manifest lists it |
| StoreInvariants.EmptyStore | go/chrome/bigstorage_test.go:144-147 | a fresh backend satisfies both invariants and reads as the empty mapping |
| StoreInvariants.ChunkKeyInjective | go/chrome/bigstorage_test.go:225-237 | under a collision-free hash, equal chunk keys of one store mean equal pieces |
| StoreInvariants.ReassemblePieces | go/chrome/bigstorage_test.go:131-134 | a manifest whose listed chunks hold given pieces reassembles to the join of those pieces |
| StoreInvariants.ReadEntryKept | go/chrome/bigstorage_test.go:240-242 | in a well-formed store, a logical key whose entry and listed chunks are kept reads the same, without error |
| StoreInvariants.WellFormedGet | go/chrome/bigstorage_test.go:158-161 | Get succeeds on a well-formed store |
| SetProofs.SetView | go/chrome/bigstorage_test.go:149-167 | Set keeps the store well formed; afterwards Get returns the previous contents overridden by the batch, every value unchanged, whether stored verbatim or chunked |
| SetProofs.StageItemView | go/chrome/bigstorage_test.go:131-134 | writing one item keeps the store well formed and changes Get's result exactly at the item's key, to the item's value |
| SetProofs.SetFitsLayout | go/chrome/bigstorage_test.go:101-105 | a value that fits becomes exactly one verbatim entry under its own key and no other entry; it is classified simple unless it is shaped like a manifest |
| SetProofs.SetChunkedLayout | go/chrome/bigstorage_test.go:122-130 | a value that does not fit leaves a manifest under its key listing its chunk keys; the new entries are that key and those chunk keys; each chunk key is in the namespace and classified as a chunk holding its piece; the pieces join back to the encoding |
| SetProofs.ThresholdBoundary | go/chrome/bigstorage_test.go:140-142 | a value whose encoding is exactly the ceiling is stored verbatim; one character more and its key holds a manifest (the exact boundary is this model's own statement; the tests use values far from it) |
| SetProofs.SameValueSharesChunks | go/chrome/bigstorage_test.go:227-230 | the same value written under two keys in one batch adds only the second key, holding the same record as the first; no chunk is written twice |
| SetProofs.SameChunksAcrossInstances | go/chrome/bigstorage_test.go:234-237 | two stores with the same namespace, ceiling, encoder and hash write the same record and the same chunk entries for the same value, whatever the key and store contents |
| SetProofs.SetKeepsNoGarbage | go/chrome/bigstorage_test.go:122-130 | writing logical keys that hold no manifest yet leaves every chunk listed by some manifest |
| SetProofs.ManifestShapedValueIsMisread | go/chrome/bigstorage_test.go:41-47 | a value that fits but is shaped like a manifest is stored verbatim, then classified as a manifest, and Get fails if a chunk it lists is absent |
| DeleteProofs.DeleteSimpleOnly | go/chrome/bigstorage_test.go:184-199 | when no deleted key holds a manifest, Delete removes exactly the requested keys and nothing else |
| DeleteProofs.DeleteReclaims | go/chrome/bigstorage_test.go:202-222 | after Delete the logical keys are exactly those not requested, the chunks are exactly those a surviving manifest lists, and every chunk left is listed |
| DeleteProofs.DeleteKeepsShared | go/chrome/bigstorage_test.go:231-242 | a logical key that is not deleted keeps its entry and every chunk it lists, and reads back exactly as before |
| DeleteProofs.DeleteView | go/chrome/bigstorage_test.go:267-281 | Delete keeps the store well formed; afterwards Get returns the previous contents without the deleted keys |
| DeleteProofs.DeleteAllEmpties | go/chrome/bigstorage_test.go:202-222 | deleting every logical key of a store without unlisted chunks leaves the backend empty (this model's own generalisation of the chunk reclamation the tests show) |
| Scenarios.SetThenGet | go/chrome/bigstorage_test.go:138-170 | a batch with distinct keys written to an empty store reads back exactly, and leaves it well formed with every chunk listed |
| Scenarios.SetThenDelete | go/chrome/bigstorage_test.go:246-286 | writing a batch to an empty store and deleting some keys reads back as the batch without those keys; the chunks left are exactly those a remaining manifest lists |
| Scenarios.SharedChunksScenario | go/chrome/bigstorage_test.go:225-242 | with one value under two keys, deleting either one leaves the store exactly as if only the other had been written; deleting that one too empties the store |
| Scenarios.DeleteTwinFirst | go/chrome/bigstorage_test.go:225-242 | with one value under two keys, deleting the first key of the batch leaves the store exactly as if only the second had been written |
| Scenarios.SetPairCommutes | go/chrome/bigstorage_test.go:227-230 | writing one value under two keys gives the same store whichever key comes first in the batch |
| Scenarios.SmallValuesStaySimple | go/chrome/bigstorage_test.go:94-105 | with the default ceiling of 1024, logical keys whose values encode to at most 1024 characters and are not shaped like a manifest are stored exactly as given, each entry classified as simple |
| Scenarios.DefaultChunkKeyPrefix | go/chrome/bigstorage_test.go:123-127 | in the default namespace every chunk key begins with `chunk-` followed by `3cc36853-b864-4122-beaa-516aa24448f6` |

## Left out

- The conversion between Go and JavaScript values, and JSON rendering, are not modelled.
  Values are the `Value` datatype, and the encoder and decoder are `Config` parameters.
- The cryptographic hash and its base64 rendering are a `Config` parameter. Lemmas that
  need distinct pieces to get distinct keys assume the hash is collision-free.
- Chunking.Split: the piece size is taken as half the ceiling, at least one character.
  The implementation of the chunk-size policy is not part of this model. The ceiling of
  200 and the chunk counts in the raw layouts of the tests agree with it. The proofs rely
  on the pieces joining back to the encoding, on the split being deterministic, and on the
  piece size never exceeding the ceiling, so that a value that does not fit splits into
  at least two pieces.
- BigStorage.Set: sizes are counted in characters of the encoding, not in UTF-8 bytes.
- BigStorage.Set: a batch is a sequence. The order of a Go map is a parameter, and a later
  item wins on a repeated key.
- BigStorage.Set: overwriting a chunked value with Set does not reclaim the old chunks.
  Removal happens only during Delete, so `SetKeepsNoGarbage` requires the keys not to hold
  manifests already.
- SetProofs.SetView and the scenarios require values that fit not to be shaped like a
  manifest. Such a value is read back as a manifest, which `ManifestShapedValueIsMisread`
  exhibits. Detecting it as an ambiguous entry is not modelled.
- IsChunkKey looks only at the `chunk-` prefix, because the code that decides it is not
  part of this model. Lemmas about logical keys require the keys not to carry that prefix.
- The manifest's field names `valid` and `chunks` are an assumption of this model; the
  manifest type `bigValueManifest` (bigstorage_test.go:42) is not part of this model.
- The continuation-passing calls, the channels that make them synchronous, the in-memory
  fake backend, backend read and write failures, and encoding failures are not modelled.
  Each call is one atomic transition over the map, and the encoder is total.
- Concurrent calls are not modelled. The component gives no isolation between them.
- `Get` reads the whole store only, since `PersistentStore.Get` takes no keys.
