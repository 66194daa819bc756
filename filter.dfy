/** The bloom filter value that every handle of the engine stands for: a bit array and
    a hash count, with the three primitives the engine uses (add, contains, union) and
    the byte encoding that serialization uses. The hash functions themselves belong to
    an external library; they are a parameter here, so every property below holds for
    whatever hashes that library computes. */
module BloomFilter {
  import opened Bytes

  /** hash(item, i, m) is the i-th hash evaluation of item for a filter of m bits;
      the filter reduces it modulo m to pick a bit. */
  type Hasher = (string, nat, nat) -> nat

  datatype Filter = Filter(bits: seq<bool>, k: nat)

  /** The bits item selects in a filter of m bits with k hash functions. */
  function Positions(hash: Hasher, item: string, k: nat, m: nat): (ps: seq<nat>)
    requires m > 0
    ensures |ps| == k
    ensures forall i :: 0 <= i < k ==> ps[i] < m
  {
    seq(k, i requires 0 <= i < k => hash(item, i, m) % m)
  }

  function ItemPositions(hash: Hasher, f: Filter, item: string): (ps: seq<nat>)
    requires |f.bits| > 0
  {
    Positions(hash, item, f.k, |f.bits|)
  }

  /** A filter with no bit set. */
  function Empty(m: nat, k: nat): (f: Filter)
    requires m > 0
    ensures |f.bits| == m && f.k == k
    ensures forall i :: 0 <= i < m ==> !f.bits[i]
  {
    Filter(seq(m, _ => false), k)
  }

  /** Every bit item selects is set. */
  predicate Contains(hash: Hasher, f: Filter, item: string)
    requires |f.bits| > 0
  {
    var ps := ItemPositions(hash, f, item);
    forall i :: 0 <= i < |ps| ==> f.bits[ps[i]]
  }

  /** Every bit set in f is set in g (bits only ever go from clear to set). */
  predicate Below(f: Filter, g: Filter)
  {
    |f.bits| == |g.bits| && forall j :: 0 <= j < |f.bits| && f.bits[j] ==> g.bits[j]
  }

  /** Set the bits item selects. */
  function Add(hash: Hasher, f: Filter, item: string): (r: Filter)
    requires |f.bits| > 0
    ensures r.k == f.k && Below(f, r)
    ensures Contains(hash, r, item)
    ensures forall j :: 0 <= j < |r.bits| && r.bits[j] && !f.bits[j] ==> j in ItemPositions(hash, f, item)
  {
    var ps := ItemPositions(hash, f, item);
    Filter(seq(|f.bits|, j requires 0 <= j < |f.bits| => f.bits[j] || j in ps), f.k)
  }

  /** Bitwise OR of two filters of the same size; the result keeps the left hash count. */
  function Union(a: Filter, b: Filter): (r: Filter)
    requires |a.bits| == |b.bits|
    ensures r.k == a.k && Below(a, r) && Below(b, r)
    ensures forall j :: 0 <= j < |r.bits| && r.bits[j] ==> a.bits[j] || b.bits[j]
  {
    Filter(seq(|a.bits|, j requires 0 <= j < |a.bits| => a.bits[j] || b.bits[j]), a.k)
  }

  /** The bytes of a filter's bit array. */
  function Serialized(f: Filter): (blob: seq<byte>)
    requires |f.bits| % 8 == 0
    ensures 8 * |blob| == |f.bits|
  {
    ToBytes(f.bits)
  }

  /** The filter a blob holds, given the hash count it was built with. */
  function Deserialized(blob: seq<byte>, k: nat): (f: Filter)
    ensures |f.bits| == 8 * |blob| && f.k == k
  {
    Filter(FromBytes(blob), k)
  }

  /** Applying items one after another, as a sequence of updates would. */
  function AddAll(hash: Hasher, f: Filter, items: seq<string>): (r: Filter)
    requires |f.bits| > 0
    ensures r.k == f.k && Below(f, r)
    decreases |items|
  {
    if items == [] then f else AddAll(hash, Add(hash, f, items[0]), items[1..])
  }

  // ----- properties -----

  /** A new filter contains no item, unless it uses no hash function at all. */
  lemma EmptyContainsNothing(hash: Hasher, m: nat, k: nat, item: string)
    requires m > 0
    ensures Contains(hash, Empty(m, k), item) <==> k == 0
  {
    var e := Empty(m, k);
    var ps := ItemPositions(hash, e, item);
    if k > 0 {
      assert !e.bits[ps[0]];
    }
  }

  /** A filter whose bits include another's contains everything the other contains. */
  lemma ContainsMonotone(hash: Hasher, f: Filter, g: Filter, item: string)
    requires |f.bits| > 0 && f.k == g.k && Below(f, g)
    requires Contains(hash, f, item)
    ensures Contains(hash, g, item)
  {
    var ps := ItemPositions(hash, f, item);
    assert ItemPositions(hash, g, item) == ps;
    forall i | 0 <= i < |ps| ensures g.bits[ps[i]] {
      assert f.bits[ps[i]];
    }
  }

  /** No false negatives: an item added at any point of a run of updates is contained
      at the end of the run. */
  lemma {:induction false} AddAllContains(hash: Hasher, f: Filter, items: seq<string>, item: string)
    requires |f.bits| > 0
    requires item in items
    ensures Contains(hash, AddAll(hash, f, items), item)
    decreases |items|
  {
    var g := Add(hash, f, items[0]);
    if items[0] == item {
      ContainsMonotone(hash, g, AddAll(hash, g, items[1..]), item);
    } else {
      AddAllContains(hash, g, items[1..], item);
    }
  }

  /** Adding an item leaves the bits unchanged exactly when the item is already contained. */
  lemma AddUnchangedIff(hash: Hasher, f: Filter, item: string)
    requires |f.bits| > 0
    ensures Add(hash, f, item) == f <==> Contains(hash, f, item)
  {
    var ps := ItemPositions(hash, f, item);
    var r := Add(hash, f, item);
    if Contains(hash, f, item) {
      forall j | 0 <= j < |f.bits| ensures r.bits[j] == f.bits[j] {
        if j in ps {
          var i :| 0 <= i < |ps| && ps[i] == j;
          assert f.bits[ps[i]];
        }
      }
      assert r.bits == f.bits;
    }
  }

  /** Update idempotence: adding the same item twice gives the bits of adding it once. */
  lemma AddIdempotent(hash: Hasher, f: Filter, item: string)
    requires |f.bits| > 0
    ensures Add(hash, Add(hash, f, item), item) == Add(hash, f, item)
  {
    AddUnchangedIff(hash, Add(hash, f, item), item);
  }

  /** Union monotonicity: whatever either side contains, the union contains. */
  lemma UnionContains(hash: Hasher, a: Filter, b: Filter, item: string)
    requires |a.bits| > 0 && |a.bits| == |b.bits| && a.k == b.k
    requires Contains(hash, a, item) || Contains(hash, b, item)
    ensures Contains(hash, Union(a, b), item)
  {
    var r := Union(a, b);
    if Contains(hash, a, item) {
      ContainsMonotone(hash, a, r, item);
    } else {
      ContainsMonotone(hash, b, r, item);
    }
  }

  /** Union monotonicity for every item at once. */
  lemma UnionContainsAll(hash: Hasher, a: Filter, b: Filter)
    requires |a.bits| > 0 && |a.bits| == |b.bits| && a.k == b.k
    ensures forall x :: Contains(hash, a, x) || Contains(hash, b, x) ==> Contains(hash, Union(a, b), x)
  {
    forall x | Contains(hash, a, x) || Contains(hash, b, x) ensures Contains(hash, Union(a, b), x) {
      UnionContains(hash, a, b, x);
    }
  }

  /** Merging after an update equals updating after the merge. */
  lemma UnionAddCommute(hash: Hasher, a: Filter, b: Filter, item: string)
    requires |a.bits| > 0 && |a.bits| == |b.bits|
    ensures Union(Add(hash, a, item), b) == Add(hash, Union(a, b), item)
  {
    var lhs := Union(Add(hash, a, item), b);
    var rhs := Add(hash, Union(a, b), item);
    assert ItemPositions(hash, Union(a, b), item) == ItemPositions(hash, a, item);
    assert lhs.bits == rhs.bits;
  }

  /** Deserializing the bytes of a filter rebuilds the same filter. */
  lemma FilterRoundTrip(f: Filter)
    requires |f.bits| % 8 == 0
    ensures Deserialized(Serialized(f), f.k) == f
  {
    FromBytesToBytes(f.bits);
  }

  /** Serializing the filter a blob holds gives back the same blob. */
  lemma BlobRoundTrip(blob: seq<byte>, k: nat)
    ensures Serialized(Deserialized(blob, k)) == blob
  {
    ToBytesFromBytes(blob);
  }
}
