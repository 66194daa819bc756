# Bloom filter extension: a verified model of the filter engine

The extension exports six operations over bloom filters. Filters live on the heap, and a
caller holds a filter only through an integer handle, which is the filter's address.
`bloom_init_handle` and `bloom_deserialize_handle` allocate a filter and return its
handle. `bloom_update_handle` adds an item to a filter in place and returns the same
handle. `bloom_merge_handle` ORs the right filter into the left one, drops the right
one's contents and returns the left handle. `bloom_serialize_handle` copies a filter's
bytes out and drops the filter's contents. `bloom_maybe_exists` asks whether an item may be in the filter that a
byte blob holds, without creating a handle.

The model has three modules:

- `Bytes` (bytes.dfy) is the byte layout of a bit array. Bit `i` is stored in bit `i % 8`
  of byte `i / 8`, least significant bit first. The module proves both round trips
  between bits and bytes.
- `BloomFilter` (filter.dfy) is the filter value: a bit sequence and a hash count `k`.
  It defines the library primitives the engine calls: add, contains, union, and
  conversion to and from bytes. The hash functions are a parameter (`Hasher`). The
  i-th hash of an item picks bit `hash(item, i, m) % m` of an `m`-bit filter. Every
  lemma holds for every hasher.
- `FilterEngine` (engine.dfy) holds the constants `NUM_HASHES = 100` and
  `BLOOM_FILTER_SIZE = 4 MiB` and the class `Engine`. The engine stands for the heap:
  - `live` maps each live handle to its filter;
  - `dead` is the set of handles whose filter's contents have been dropped;
  - the ghost map `added` records the items that went into each live filter, directly
    or through merges.

  The class invariant `Valid()` says that no handle is both live and dead, that every
  live filter has whole bytes and `NUM_HASHES` hashes, and that every live filter
  contains every item recorded for it. That last part is the no-false-negatives
  property, kept by every operation. Each method's `ensures` gives the whole new state
  in terms of the old one. Each of the exported operations (`Init`, `Update`, `Merge`,
  `Serialize`, `Deserialize`) also says that every handle moves only along
  `Unborn → Live → Dead` (`Step`).

  `Sanity` replays the repository's `sanity` test on the engine model and proves its
  four presence assertions. It is about the handle protocol: which handles are live
  when, and that none stays live. `SanityScenario` states the same test on filter
  values alone, with no engine and for every hasher. It shows that the four presence
  results follow from the filter primitives and the byte encoding, independently of
  the handle bookkeeping.

A blob is only `get_u8_array()`, the bit array. Its length gives the size. The hash
count is not stored, since `from_u8_array` is always given `NUM_HASHES`
(src/lib.rs:90, src/lib.rs:95). The code does not validate blobs, so `Deserialize` and
`MaybeExists` have a well-formedness precondition.

## Model

| member | source | states |
|---|---|---|
| `BloomFilter.Positions` | src/lib.rs:29 | an item selects `k` positions, each inside the filter (they may repeat) |
| `BloomFilter.Empty` | src/lib.rs:56-57 | a new filter has the requested size and hash count and no bit set |
| `BloomFilter.Contains` | src/lib.rs:95 | an item may be present exactly when every position it selects is set |
| `BloomFilter.EmptyContainsNothing` | src/lib.rs:56-57 | a new filter reports every item absent, unless its hash count is zero |
| `BloomFilter.Add` | src/lib.rs:64 | after adding, the filter contains the item, keeps its hash count and every bit set before, and sets no bit other than the item's positions |
| `BloomFilter.Union` | src/lib.rs:73 | the union has every bit set in either input and no bit set in neither; it keeps the left hash count |
| `BloomFilter.Serialized` | src/lib.rs:83 | a filter's bytes number one per eight bits |
| `BloomFilter.Deserialized` | src/lib.rs:90 | a decoded filter has eight bits per blob byte and the hash count it is given |
| `BloomFilter.AddAll` | src/lib.rs:62-66 | a run of updates keeps the hash count and only ever sets bits |
| `BloomFilter.ContainsMonotone` | src/lib.rs:64 | a filter whose bits include another's contains every item the other contains |
| `BloomFilter.AddAllContains` | src/lib.rs:62-66 | no false negatives: an item added at any point of a run of updates is contained at the end |
| `BloomFilter.AddUnchangedIff` | src/lib.rs:64 | adding an item leaves the filter unchanged if and only if the filter already contains it |
| `BloomFilter.AddIdempotent` | src/lib.rs:62-66 | adding the same item twice gives the same bits as adding it once |
| `BloomFilter.UnionContains` | src/lib.rs:73 | union monotonicity: an item either input contains is contained in the union |
| `BloomFilter.UnionContainsAll` | src/lib.rs:73 | union monotonicity for all items at once |
| `BloomFilter.UnionAddCommute` | src/lib.rs:62-77 | merging after an update gives the same filter as updating after the merge |
| `BloomFilter.FilterRoundTrip` | src/lib.rs:80-92 | decoding a filter's bytes with its hash count rebuilds the same filter |
| `BloomFilter.BlobRoundTrip` | src/lib.rs:80-92 | serializing the filter decoded from a blob gives back that exact blob |
| `Bytes.ToBytesFromBytes` | src/lib.rs:89-92 | storing the bits read from a blob reproduces the blob byte for byte |
| `Bytes.FromBytesToBytes` | src/lib.rs:80-87 | reading back the bytes that store a bit array gives the same bits |
| `FilterEngine.MaybeExists` | src/lib.rs:94-96 | decodes the blob with `NUM_HASHES` hashes and reports whether every selected bit is set; it reads no engine state, and its answer is the one any engine filter whose bytes are the blob gives |
| `FilterEngine.SerializedSource` | src/lib.rs:80-92 | the only engine filter whose bytes are a given blob is the filter decoded from that blob |
| `FilterEngine.MaybeExistsOfSerialized` | src/lib.rs:94-96 | `bloom_maybe_exists` on a filter's bytes answers exactly what the filter answers, so an item the filter contains is never reported absent |
| `FilterEngine.DeadIsFinal` | src/lib.rs:70-92 | along any run of steps, a handle that is dead stays dead |
| `FilterEngine.LiveIsContiguous` | src/lib.rs:55-92 | a handle is live over one unbroken stretch of a run |
| `FilterEngine.Engine.Allocate` | src/lib.rs:58 | a new filter's address is non-null and was never a live or dead handle |
| `FilterEngine.Engine.FilterOf` | src/lib.rs:36-39 | a live handle points to a well-formed filter that contains every item recorded for it |
| `FilterEngine.Engine.WithFilter` | src/lib.rs:41-46 | the filter at the handle is replaced by the change applied to it, the same handle comes back, and nothing else changes |
| `FilterEngine.Engine.DropFilter` | src/lib.rs:48-51 | the handle leaves the live map and becomes dead; nothing else changes |
| `FilterEngine.Engine.Init` | src/lib.rs:55-59 | the returned handle was unborn and is now live, with an all-clear filter of `8 * BLOOM_FILTER_SIZE` bits and `NUM_HASHES` hashes; no other handle changes |
| `FilterEngine.Engine.Update` | src/lib.rs:62-66 | returns the same handle; its filter is the old one with the item added, so it contains the item and keeps every bit set before; every other filter is unchanged |
| `FilterEngine.Engine.Merge` | src/lib.rs:70-77 | returns the left handle, whose filter is the OR of both old filters and contains every item either contained; the right handle is dead; no other handle changes |
| `FilterEngine.Engine.Serialize` | src/lib.rs:80-87 | returns the filter's bytes and drops the filter's contents, so the handle is dead; every item that went into the filter is reported present by `MaybeExists` on those bytes; no other handle changes |
| `FilterEngine.Engine.Deserialize` | src/lib.rs:89-92 | the returned handle was unborn and is now live, with the blob's bits and `NUM_HASHES` hashes; serializing that filter gives back the blob |
| `FilterEngine.InitWithTwo` | src/lib.rs:105-111 | init followed by two updates yields a new live handle whose filter is the empty filter with both items added |
| `FilterEngine.MergedBlobContains` | src/lib.rs:113-127 | the bytes of a merge survive decode and re-encode unchanged and report every item either side contained |
| `FilterEngine.Sanity` | src/lib.rs:104-127 | the repository's `sanity` test replayed on the engine model: `foo`, `bar`, `hello` and `world` are all reported present, and the live map ends as it started |
| `FilterEngine.SanityScenario` | src/lib.rs:104-127 | the same test on filter values, for every hasher: the four items are all reported present |

## Left out

- The hash functions and bit arithmetic of the filter library (`add`, `contains`, `union`, `get_u8_array`, `from_u8_array`) are not part of this model. The hashes are a parameter, and the byte layout is a direct little-endian bits/bytes encoding.
- The check that `"notfound"` is absent (src/lib.rs:128) and the false-positive rate both depend on the concrete hashes and on probability, so neither can be stated for an arbitrary hasher.
- Raw pointers, `unsafe`, `Box::leak`, `ptr::read` and deallocation are modelled only as a handle's live or dead status, not as memory.
- FilterEngine.Engine.Allocate: every filter box is leaked with `Box::leak` and never deallocated (src/lib.rs:58, src/lib.rs:91); `drop_filter` reads the filter out with `ptr::read` and drops only that copy's contents (src/lib.rs:50). No box address is ever reused, which is what the model's never-reused handles state. The numeric address values are not modelled.
- Handles are unbounded integers, so the 32-bit (wasm) and 64-bit (native) handle widths and address-space exhaustion are not modelled.
- Using a dead or unknown handle is undefined behaviour in the source; the model makes it a precondition (`h in live`) rather than a behaviour.
- FilterEngine.Engine.Merge: the source does not check that sizes and hash counts match; the model requires them to match and does not model the result of a mismatched merge. It also requires `left != right`: in the source `merge(h, h)` makes two `&mut` references to one filter, drops that filter's contents and returns the dead handle (src/lib.rs:70-77), which is undefined behaviour.
- FilterEngine.Engine.Deserialize: requires a non-empty blob; the source would decode a zero-bit filter from an empty blob, whose later use the library does not define. `MaybeExists` has the same precondition. The library's word-alignment requirement on blob length is not modelled.
- Items are strings, and the UTF-8 encoding of `value.as_bytes()` is folded into the hasher.
- `BLOOM_FILTER_SIZE` is read as a byte count, as its doc comment says (src/lib.rs:31-33). An init filter therefore has `8 * BLOOM_FILTER_SIZE` bits. How the library itself reads the number is not part of this model.
- The intersect variant of merge is not in this code; merge is union only (src/lib.rs:73).
- The `cfg` switches, the `wit_bindgen` export and the stand-in `Extension` trait (src/lib.rs:1-21) are binding glue.
