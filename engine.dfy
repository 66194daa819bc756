/** The filter engine: the six operations the extension exports, over filters that live
    on the heap and are known to callers only by an integer handle (the filter's address).
    The heap is modelled by the engine's map from live handles to filters. Consuming a
    handle drops the filter's contents and moves the handle from the map to the set of
    dead handles; the leaked box itself is never returned to the allocator. */
module FilterEngine {
  import opened Bytes
  import opened BloomFilter

  /** Hash count of every filter the engine creates or decodes. */
  const NUM_HASHES: nat := 100

  /** Size in bytes of a filter made by init. */
  const BLOOM_FILTER_SIZE: nat := 4 * 1024 * 1024

  /** A filter's address, passed across the boundary as an integer. */
  type Handle = int

  /** The parameters every filter in the engine has: a non-empty bit array of whole
      bytes and the engine's hash count. */
  predicate WellFormed(f: Filter)
  {
    |f.bits| > 0 && |f.bits| % 8 == 0 && f.k == NUM_HASHES
  }

  /** A blob the filter library can decode into a usable filter. */
  predicate WellFormedBlob(blob: seq<byte>)
  {
    |blob| > 0
  }

  /** bloom_maybe_exists: decode a transient filter from the blob and query it. The
      answer is the one any engine filter whose bytes are the blob would give, so an
      item that filter contains is never reported absent. */
  function MaybeExists(hash: Hasher, blob: seq<byte>, item: string): (r: bool)
    requires WellFormedBlob(blob)
    ensures forall f :: WellFormed(f) && Serialized(f) == blob ==> (r <==> Contains(hash, f, item))
  {
    SerializedSource(blob);
    Contains(hash, Deserialized(blob, NUM_HASHES), item)
  }

  /** The only engine filter whose bytes are blob is the one decoded from blob. */
  lemma SerializedSource(blob: seq<byte>)
    ensures forall f :: WellFormed(f) && Serialized(f) == blob ==> f == Deserialized(blob, NUM_HASHES)
  {
    forall f | WellFormed(f) && Serialized(f) == blob ensures f == Deserialized(blob, NUM_HASHES) {
      FilterRoundTrip(f);
    }
  }

  /** Querying the bytes of a filter answers exactly what the filter itself answers;
      in particular an item the filter contains is never reported absent. */
  lemma MaybeExistsOfSerialized(hash: Hasher, f: Filter, item: string)
    requires WellFormed(f)
    ensures WellFormedBlob(Serialized(f))
    ensures MaybeExists(hash, Serialized(f), item) <==> Contains(hash, f, item)
  {
    FilterRoundTrip(f);
  }

  /** The life of one handle value. */
  datatype Phase = Unborn | Live | Dead

  /** The moves one operation may make on one handle: none, create, or consume. */
  predicate Step(before: Phase, after: Phase)
  {
    before == after || (before == Unborn && after == Live) || (before == Live && after == Dead)
  }

  /** A dead handle stays dead: along any run of operations, nothing brings it back. */
  lemma {:induction false} DeadIsFinal(trace: seq<Phase>, i: nat, j: nat)
    requires forall n :: 0 <= n < |trace| - 1 ==> Step(trace[n], trace[n + 1])
    requires i <= j < |trace| && trace[i] == Dead
    ensures trace[j] == Dead
    decreases j - i
  {
    if i < j {
      assert Step(trace[i], trace[i + 1]);
      DeadIsFinal(trace, i + 1, j);
    }
  }

  /** A handle is live over one unbroken stretch of a run: live at two points means live
      at every point between them. */
  lemma {:induction false} LiveIsContiguous(trace: seq<Phase>, i: nat, n: nat, j: nat)
    requires forall p :: 0 <= p < |trace| - 1 ==> Step(trace[p], trace[p + 1])
    requires i <= n <= j < |trace| && trace[i] == Live && trace[j] == Live
    ensures trace[n] == Live
    decreases n - i
  {
    if i < n {
      assert Step(trace[i], trace[i + 1]);
      if trace[i + 1] == Dead {
        DeadIsFinal(trace, i + 1, j);
      } else {
        LiveIsContiguous(trace, i + 1, n, j);
      }
    }
  }

  /** Every finite set of integers has an upper bound. */
  lemma UpperBound(s: set<int>) returns (b: int)
    ensures forall x :: x in s ==> x < b
  {
    if s == {} {
      b := 0;
    } else {
      assert (forall z :: z !in s) ==> s == {};
      var y :| y in s;
      var c := UpperBound(s - {y});
      b := if y < c then c else y + 1;
      forall x | x in s ensures x < b {
        if x != y { assert x in s - {y}; }
      }
    }
  }

  class Engine {
    /** The hash functions of the filter library. */
    const hash: Hasher
    /** Filters currently allocated, by handle. */
    var live: map<Handle, Filter>
    /** Handles whose filter's contents have been dropped. */
    var dead: set<Handle>
    /** Items added, directly or through merges, to each live filter. */
    ghost var added: map<Handle, set<string>>

    ghost predicate Valid()
      reads this
    {
      && live.Keys !! dead
      && added.Keys == live.Keys
      && (forall h :: h in live ==> WellFormed(live[h]))
      && (forall h, x :: h in live && x in added[h] ==> Contains(hash, live[h], x))
    }

    function PhaseOf(h: Handle): Phase
      reads this
    {
      if h in live then Live else if h in dead then Dead else Unborn
    }

    constructor (hash: Hasher)
      ensures Valid() && this.hash == hash
      ensures live == map[] && dead == {}
    {
      this.hash := hash;
      live, dead, added := map[], {}, map[];
    }

    /** The address of a newly leaked box: never null, and not the address of any
        earlier filter, since no box the engine leaks is ever deallocated. */
    method Allocate() returns (h: Handle)
      ensures h != 0 && h !in live && h !in dead
    {
      var b := UpperBound(live.Keys + dead);
      var w := if b > 0 then b else 1;
      assert w != 0 && w !in live && w !in dead;
      h :| h != 0 && h !in live && h !in dead;
    }

    /** filter_from: the filter a live handle points to. */
    function FilterOf(h: Handle): (f: Filter)
      reads this
      requires Valid() && h in live
      ensures WellFormed(f)
      ensures forall x :: x in added[h] ==> Contains(hash, f, x)
    {
      live[h]
    }

    /** with_filter: change the filter at h in place by f and hand back h. The engine's
        callers pass changes that only set bits and keep the parameters. */
    method WithFilter(h: Handle, f: Filter --> Filter) returns (r: Handle)
      requires Valid() && h in live
      requires f.requires(live[h])
      requires Below(live[h], f(live[h])) && f(live[h]).k == live[h].k
      modifies this
      ensures Valid() && r == h
      ensures live == old(live)[h := f(old(live[h]))]
      ensures dead == old(dead) && added == old(added)
    {
      var g := f(live[h]);
      forall x | x in added[h] ensures Contains(hash, g, x) {
        ContainsMonotone(hash, live[h], g, x);
      }
      live := live[h := g];
      r := h;
    }

    /** drop_filter: drop the contents of the filter at h (its box stays leaked); h is
        dead from now on. */
    method DropFilter(h: Handle)
      requires Valid() && h in live
      modifies this
      ensures Valid()
      ensures live == old(live) - {h} && dead == old(dead) + {h} && added == old(added) - {h}
    {
      live := live - {h};
      dead := dead + {h};
      added := added - {h};
    }

    /** bloom_init_handle: a new empty filter of BLOOM_FILTER_SIZE bytes and NUM_HASHES
        hashes, under a handle no filter has had before. */
    method Init() returns (h: Handle)
      requires Valid()
      modifies this
      ensures Valid()
      ensures old(PhaseOf(h)) == Unborn && PhaseOf(h) == Live
      ensures live == old(live)[h := Empty(8 * BLOOM_FILTER_SIZE, NUM_HASHES)]
      ensures dead == old(dead) && added == old(added)[h := {}]
      ensures forall g :: Step(old(PhaseOf(g)), PhaseOf(g))
    {
      h := Allocate();
      live := live[h := Empty(8 * BLOOM_FILTER_SIZE, NUM_HASHES)];
      added := added[h := {}];
    }

    /** bloom_update_handle: add item to the filter at h in place; h stays live and
        every other filter is untouched. */
    method Update(h: Handle, item: string) returns (r: Handle)
      requires Valid() && h in live
      modifies this
      ensures Valid() && r == h
      ensures live == old(live)[h := Add(hash, old(live[h]), item)]
      ensures dead == old(dead) && added == old(added)[h := old(added[h]) + {item}]
      ensures Contains(hash, live[h], item)
      ensures forall g :: Step(old(PhaseOf(g)), PhaseOf(g))
    {
      var hf := hash;
      r := WithFilter(h, (g: Filter) requires |g.bits| > 0 => Add(hf, g, item));
      added := added[h := added[h] + {item}];
    }

    /** bloom_merge_handle: OR the right filter into the left one, free the right one,
        and hand back the left handle. */
    method Merge(left: Handle, right: Handle) returns (r: Handle)
      requires Valid() && left in live && right in live && left != right
      requires |live[left].bits| == |live[right].bits| && live[left].k == live[right].k
      modifies this
      ensures Valid() && r == left
      ensures live == (old(live) - {right})[left := Union(old(live[left]), old(live[right]))]
      ensures dead == old(dead) + {right}
      ensures added == (old(added) - {right})[left := old(added[left]) + old(added[right])]
      ensures PhaseOf(right) == Dead
      ensures forall x :: Contains(hash, old(live[left]), x) || Contains(hash, old(live[right]), x) ==>
                Contains(hash, live[left], x)
      ensures forall g :: Step(old(PhaseOf(g)), PhaseOf(g))
    {
      var other := FilterOf(right);
      var leftBefore := FilterOf(left);
      UnionContainsAll(hash, leftBefore, other);
      r := WithFilter(left, (g: Filter) requires |g.bits| == |other.bits| => Union(g, other));
      added := added[left := added[left] + added[right]];
      DropFilter(right);
    }

    /** bloom_serialize_handle: copy out the bytes of the filter at h, then free it.
        Every item that went into the filter is reported by maybe_exists on those bytes. */
    method Serialize(h: Handle) returns (blob: seq<byte>)
      requires Valid() && h in live
      modifies this
      ensures Valid()
      ensures blob == Serialized(old(live[h]))
      ensures live == old(live) - {h} && dead == old(dead) + {h} && added == old(added) - {h}
      ensures PhaseOf(h) == Dead
      ensures WellFormedBlob(blob) && forall x :: x in old(added[h]) ==> MaybeExists(hash, blob, x)
      ensures forall g :: Step(old(PhaseOf(g)), PhaseOf(g))
    {
      var f := FilterOf(h);
      blob := Serialized(f);
      MaybeExistsOfSerialized(hash, f, "");
      forall x | x in added[h] ensures MaybeExists(hash, blob, x) {
        MaybeExistsOfSerialized(hash, f, x);
      }
      DropFilter(h);
    }

    /** bloom_deserialize_handle: a new filter decoded from blob with NUM_HASHES hashes,
        under a handle no filter has had before. Its bytes are blob again. */
    method Deserialize(blob: seq<byte>) returns (h: Handle)
      requires Valid() && WellFormedBlob(blob)
      modifies this
      ensures Valid()
      ensures old(PhaseOf(h)) == Unborn && PhaseOf(h) == Live
      ensures live == old(live)[h := Deserialized(blob, NUM_HASHES)]
      ensures dead == old(dead) && added == old(added)[h := {}]
      ensures Serialized(live[h]) == blob
      ensures forall g :: Step(old(PhaseOf(g)), PhaseOf(g))
    {
      h := Allocate();
      live := live[h := Deserialized(blob, NUM_HASHES)];
      added := added[h := {}];
      BlobRoundTrip(blob, NUM_HASHES);
    }
  }

  /** Init followed by two updates, as each half of the sanity test does. */
  method InitWithTwo(e: Engine, a: string, b: string) returns (h: Handle)
    requires e.Valid()
    modifies e
    ensures e.Valid() && old(e.PhaseOf(h)) == Unborn
    ensures e.live == old(e.live)[h := AddAll(e.hash, Empty(8 * BLOOM_FILTER_SIZE, NUM_HASHES), [a, b])]
    ensures e.dead == old(e.dead) && e.added == old(e.added)[h := {a, b}]
  {
    h := e.Init();
    h := e.Update(h, a);
    h := e.Update(h, b);
    ghost var empty := Empty(8 * BLOOM_FILTER_SIZE, NUM_HASHES);
    ghost var once := Add(e.hash, empty, a);
    assert [a, b][1..] == [b] && [b][1..] == [];
    assert AddAll(e.hash, empty, [a, b]) == AddAll(e.hash, once, [b]);
    assert AddAll(e.hash, once, [b]) == AddAll(e.hash, Add(e.hash, once, b), []);
    assert {} + {a} + {b} == {a, b};
  }

  /** The repository's sanity test, replayed on the engine: two filters built by
      updates, merged, serialized, decoded and serialized again. It proves that every
      item added to either filter is reported present and that no handle stays live. */
  method Sanity(e: Engine) returns (foo: bool, bar: bool, hello: bool, world: bool)
    requires e.Valid()
    modifies e
    ensures e.Valid() && e.live == old(e.live)
    ensures foo && bar && hello && world
  {
    ghost var start := e.live;
    var h1 := InitWithTwo(e, "hello", "world");
    ghost var f1 := e.live[h1];
    var h2 := InitWithTwo(e, "foo", "bar");
    ghost var f2 := e.live[h2];
    var m := e.Merge(h1, h2);
    ghost var merged := e.live[m];
    assert "foo" in e.added[m] && "bar" in e.added[m] && "hello" in e.added[m] && "world" in e.added[m];
    var s := e.Serialize(m);
    var d := e.Deserialize(s);
    ghost var decoded := e.live[d];
    var s2 := e.Serialize(d);
    assert s2 == s;
    ScenarioFreesAll(start, h1, h2, d, f1, f2, merged, decoded);
    foo := MaybeExists(e.hash, s2, "foo");
    bar := MaybeExists(e.hash, s2, "bar");
    hello := MaybeExists(e.hash, s2, "hello");
    world := MaybeExists(e.hash, s2, "world");
  }

  /** The live map of the sanity test returns to where it started: the two filters it
      creates are consumed by the merge and the first serialize, the decoded one by the
      second serialize. */
  lemma ScenarioFreesAll<V>(start: map<Handle, V>, h1: Handle, h2: Handle, d: Handle, f1: V, f2: V, merged: V, decoded: V)
    requires h1 !in start && h2 !in start[h1 := f1] && d !in start
    ensures ((((start[h1 := f1][h2 := f2] - {h2})[h1 := merged]) - {h1})[d := decoded]) - {d} == start
  {
  }

  /** The blob of a merge, decoded and serialized again, still reports every item
      either side contained. */
  lemma MergedBlobContains(hash: Hasher, f1: Filter, f2: Filter, item: string)
    requires WellFormed(f1) && WellFormed(f2) && |f1.bits| == |f2.bits|
    requires Contains(hash, f1, item) || Contains(hash, f2, item)
    ensures WellFormedBlob(Serialized(Union(f1, f2)))
    ensures Serialized(Deserialized(Serialized(Union(f1, f2)), NUM_HASHES)) == Serialized(Union(f1, f2))
    ensures MaybeExists(hash, Serialized(Union(f1, f2)), item)
  {
    var u := Union(f1, f2);
    BlobRoundTrip(Serialized(u), NUM_HASHES);
    UnionContains(hash, f1, f2, item);
    MaybeExistsOfSerialized(hash, u, item);
  }

  /** The same scenario on filter values alone, with no handles: for every choice of
      hash functions, the four items survive the merge and both encodings. */
  lemma SanityScenario(hash: Hasher)
    ensures var empty := Empty(8 * BLOOM_FILTER_SIZE, NUM_HASHES);
            var f1 := AddAll(hash, empty, ["hello", "world"]);
            var f2 := AddAll(hash, empty, ["foo", "bar"]);
            var s := Serialized(Deserialized(Serialized(Union(f1, f2)), NUM_HASHES));
            && WellFormedBlob(s)
            && MaybeExists(hash, s, "foo") && MaybeExists(hash, s, "bar")
            && MaybeExists(hash, s, "hello") && MaybeExists(hash, s, "world")
  {
    var empty := Empty(8 * BLOOM_FILTER_SIZE, NUM_HASHES);
    var f1 := AddAll(hash, empty, ["hello", "world"]);
    var f2 := AddAll(hash, empty, ["foo", "bar"]);
    AddAllContains(hash, empty, ["hello", "world"], "hello");
    AddAllContains(hash, empty, ["hello", "world"], "world");
    AddAllContains(hash, empty, ["foo", "bar"], "foo");
    AddAllContains(hash, empty, ["foo", "bar"], "bar");
    MergedBlobContains(hash, f1, f2, "hello");
    MergedBlobContains(hash, f1, f2, "world");
    MergedBlobContains(hash, f1, f2, "foo");
    MergedBlobContains(hash, f1, f2, "bar");
  }
}
