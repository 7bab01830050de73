/** The pool of message buffers: one bucket per doubled size, filled up front, refilled as messages are done. */
module BufferPool {
  import opened Prelude

  const USIZE_LIMIT := 0x1_0000_0000_0000_0000

  /** A growable buffer: what it has room for, and how much of that is exposed. */
  datatype Buffer = Buffer(capacity: nat, len: nat)

  /** A rented buffer, and where it came from. */
  datatype PooledBytes = PooledBytes(buf: Buffer, originalCapacity: nat, bucketIndex: nat)

  /** The buffers at rest, and how many of them their list has room for. */
  datatype Bucket = Bucket(capacity: nat, buffers: seq<Buffer>, ceiling: nat)

  /** Doubling sizes from `minLen` to the last one within `maxLen`. */
  predicate Ladder(sizes: seq<nat>, minLen: nat, maxLen: nat) {
    && (sizes == [] <==> minLen > maxLen)
    && (sizes != [] ==> sizes[0] == minLen && sizes[|sizes| - 1] <= maxLen < 2 * sizes[|sizes| - 1])
    && forall i | 0 <= i < |sizes| - 1 :: sizes[i + 1] == 2 * sizes[i]
  }

  /** `minLen`, doubled `times` times. */
  function Doubled(minLen: nat, times: nat): nat {
    if times == 0 then minLen else 2 * Doubled(minLen, times - 1)
  }

  /** No size that is tried overflows when it is doubled. */
  ghost predicate NoOverflow(minLen: nat, maxLen: nat) {
    forall i: nat :: Doubled(minLen, i) <= maxLen ==> Doubled(minLen, i + 1) < USIZE_LIMIT
  }

  function Sizes(buckets: seq<Bucket>): (sizes: seq<nat>)
    ensures |sizes| == |buckets|
  {
    seq(|buckets|, i requires 0 <= i < |buckets| => buckets[i].capacity)
  }

  /** The sizes are `minLen` times the powers of two. */
  lemma {:induction false} LadderIsPowers(sizes: seq<nat>, minLen: nat, maxLen: nat, i: nat)
    requires Ladder(sizes, minLen, maxLen) && i < |sizes|
    ensures sizes[i] == minLen * Pow2(i)
  {
    if i > 0 {
      LadderIsPowers(sizes, minLen, maxLen, i - 1);
      assert Pow2(i) == 2 * Pow2(i - 1);
    }
  }

  /** And they are sorted. */
  lemma {:induction false} LadderAscends(sizes: seq<nat>, minLen: nat, maxLen: nat, i: nat, j: nat)
    requires Ladder(sizes, minLen, maxLen) && i <= j < |sizes|
    ensures sizes[i] <= sizes[j]
    decreases j
  {
    if i < j {
      LadderAscends(sizes, minLen, maxLen, i, j - 1);
    }
  }

  /** The first size that fits is the smallest, and wastes less than half unless it is the smallest of all. */
  lemma FirstFitIsTight(sizes: seq<nat>, minLen: nat, maxLen: nat, n: nat, i: nat)
    requires Ladder(sizes, minLen, maxLen) && i < |sizes| && sizes[i] >= n
    requires forall j | 0 <= j < i :: sizes[j] < n
    ensures sizes[i] == minLen || sizes[i] < 2 * n
    ensures forall j | 0 <= j < |sizes| && sizes[j] >= n :: sizes[i] <= sizes[j]
  {
    if i > 0 {
      assert sizes[i - 1 + 1] == 2 * sizes[i - 1];
    }
    forall j | 0 <= j < |sizes| && sizes[j] >= n
      ensures sizes[i] <= sizes[j]
    {
      LadderAscends(sizes, minLen, maxLen, i, j);
    }
  }

  /** A request is served exactly when there is a bucket at all and the last one is large enough. */
  lemma ServedMeans(sizes: seq<nat>, minLen: nat, maxLen: nat, n: nat)
    requires Ladder(sizes, minLen, maxLen)
    ensures (exists i :: 0 <= i < |sizes| && sizes[i] >= n) <==> sizes != [] && sizes[|sizes| - 1] >= n
  {
    forall i | 0 <= i < |sizes|
      ensures sizes[i] <= sizes[|sizes| - 1]
    {
      LadderAscends(sizes, minLen, maxLen, i, |sizes| - 1);
    }
  }

  /** A bucket at rest and the buffers out of it: none lost, none too small, none too many. */
  ghost predicate Kept(preAllocation: nat, i: nat, bucket: Bucket, out: multiset<PooledBytes>) {
    && preAllocation <= |bucket.buffers| + |out|
    && preAllocation <= bucket.ceiling
    && |bucket.buffers| <= bucket.ceiling
    && (forall b <- bucket.buffers :: b.len <= bucket.capacity <= b.capacity)
    && forall p <- out :: p.bucketIndex == i && p.originalCapacity == bucket.capacity && p.buf.len <= bucket.capacity <= p.buf.capacity
  }

  /** Take the last resting buffer, or make a new one. */
  function Taken(bucket: Bucket): (Buffer, Bucket) {
    if bucket.buffers == [] then (Buffer(bucket.capacity, 0), bucket)
    else (bucket.buffers[|bucket.buffers| - 1], bucket.(buffers := bucket.buffers[..|bucket.buffers| - 1]))
  }

  /** Put a buffer to rest where there is room. */
  function Rested(bucket: Bucket, buffer: Buffer): Bucket {
    if |bucket.buffers| < bucket.ceiling then bucket.(buffers := bucket.buffers + [buffer]) else bucket
  }

  lemma TakenIsKept(preAllocation: nat, i: nat, bucket: Bucket, out: multiset<PooledBytes>, n: nat)
    requires Kept(preAllocation, i, bucket, out) && n <= bucket.capacity
    ensures var (buffer, bucket') := Taken(bucket);
            && n <= buffer.capacity
            && Kept(preAllocation, i, bucket', out + multiset{PooledBytes(buffer.(len := n), bucket.capacity, i)})
  {
  }

  lemma RestedIsKept(preAllocation: nat, i: nat, bucket: Bucket, out: multiset<PooledBytes>, p: PooledBytes)
    requires Kept(preAllocation, i, bucket, out) && p in out
    ensures Kept(preAllocation, i, Rested(bucket, p.buf.(len := p.originalCapacity)), out - multiset{p})
  {
  }

  method Preallocate(count: nat, size: nat) returns (buffs: seq<Buffer>)
    ensures |buffs| == count && forall b <- buffs :: b == Buffer(size, 0)
  {
    buffs := [];
    for i := 0 to count
      invariant |buffs| == i && forall b <- buffs :: b == Buffer(size, 0)
    {
      buffs := buffs + [Buffer(size, 0)];
    }
  }

  /** The buckets of a new pool; `vecCapacity` is what the allocator makes of a request for `preAllocation` slots. */
  method MakeBuckets(minLen: nat, maxLen: nat, preAllocation: nat, vecCapacity: nat) returns (buckets: seq<Bucket>)
    requires 1 <= minLen && NoOverflow(minLen, maxLen) && preAllocation <= vecCapacity
    ensures Ladder(Sizes(buckets), minLen, maxLen)
    ensures forall i | 0 <= i < |buckets| ::
              && buckets[i].ceiling == vecCapacity && |buckets[i].buffers| == preAllocation
              && Kept(preAllocation, i, buckets[i], multiset{})
  {
    buckets := [];
    ghost var sizes: seq<nat> := [];
    var currentSize := minLen;
    while currentSize <= maxLen
      invariant |sizes| == |buckets| && sizes == Sizes(buckets)
      invariant currentSize == Doubled(minLen, |sizes|) && currentSize >= 1
      invariant if sizes == [] then currentSize == minLen
                else sizes[0] == minLen <= maxLen && currentSize == 2 * sizes[|sizes| - 1] && sizes[|sizes| - 1] <= maxLen
      invariant forall i | 0 <= i < |sizes| - 1 :: sizes[i + 1] == 2 * sizes[i]
      invariant forall i | 0 <= i < |buckets| ::
                  && buckets[i].ceiling == vecCapacity && |buckets[i].buffers| == preAllocation
                  && Kept(preAllocation, i, buckets[i], multiset{})
      decreases maxLen - currentSize
    {
      hide Doubled, Kept, NoOverflow, Ladder;
      var buffs := Preallocate(preAllocation, currentSize);
      NewIsKept(preAllocation, |buckets|, Bucket(currentSize, buffs, vecCapacity));
      buckets := buckets + [Bucket(currentSize, buffs, vecCapacity)];
      NextSize(minLen, maxLen, |sizes|);
      assert 2 * currentSize < USIZE_LIMIT;
      sizes := sizes + [currentSize];
      currentSize := 2 * currentSize;
    }
  }

  lemma NewIsKept(preAllocation: nat, i: nat, bucket: Bucket)
    requires |bucket.buffers| == preAllocation <= bucket.ceiling && forall b <- bucket.buffers :: b == Buffer(bucket.capacity, 0)
    ensures Kept(preAllocation, i, bucket, multiset{})
  {
  }

  lemma NextSize(minLen: nat, maxLen: nat, i: nat)
    requires NoOverflow(minLen, maxLen) && Doubled(minLen, i) <= maxLen
    ensures 2 * Doubled(minLen, i) == Doubled(minLen, i + 1) < USIZE_LIMIT
  {
  }

  class MultiBufferPool {
    const minLen: nat
    const maxLen: nat
    const preAllocation: nat
    var buckets: seq<Bucket>
    /** The buffers out on rent, bucket by bucket. */
    ghost var rented: seq<multiset<PooledBytes>>

    ghost predicate Valid()
      reads this
    {
      && Ladder(Sizes(buckets), minLen, maxLen)
      && |rented| == |buckets|
      && forall i | 0 <= i < |buckets| :: Kept(preAllocation, i, buckets[i], rented[i])
    }

    constructor (minLen: nat, maxLen: nat, preAllocation: nat, vecCapacity: nat)
      requires 1 <= minLen && NoOverflow(minLen, maxLen) && preAllocation <= vecCapacity
      ensures Valid() && this.minLen == minLen && this.maxLen == maxLen && this.preAllocation == preAllocation
      ensures forall i | 0 <= i < |buckets| ::
                && buckets[i].ceiling == vecCapacity && |buckets[i].buffers| == preAllocation
                && rented[i] == multiset{}
    {
      hide Ladder, Kept, NoOverflow;
      var made := MakeBuckets(minLen, maxLen, preAllocation, vecCapacity);
      this.minLen, this.maxLen, this.preAllocation := minLen, maxLen, preAllocation;
      buckets, rented := made, seq(|made|, _ => multiset{});
    }

    function MaxCapacity(): nat
      reads this
    {
      if buckets == [] then 0 else buckets[|buckets| - 1].capacity
    }

    /** The first bucket that fits. */
    method FindBucket(requestedSize: nat) returns (i: nat)
      requires Ladder(Sizes(buckets), minLen, maxLen) && buckets != [] && requestedSize <= MaxCapacity()
      ensures i < |buckets| && buckets[i].capacity >= requestedSize
      ensures buckets[i].capacity == minLen || buckets[i].capacity < 2 * requestedSize
      ensures forall bucket <- buckets :: bucket.capacity >= requestedSize ==> buckets[i].capacity <= bucket.capacity
    {
      hide Ladder;
      ghost var sizes := Sizes(buckets);
      assert forall j | 0 <= j < |buckets| :: sizes[j] == buckets[j].capacity;
      i := 0;
      while buckets[i].capacity < requestedSize
        invariant i < |buckets| && forall j | 0 <= j < i :: sizes[j] < requestedSize
        decreases |buckets| - i
      {
        i := i + 1;
      }
      FirstFitIsTight(sizes, minLen, maxLen, requestedSize, i);
    }

    /** Rent the smallest buffer that fits; the source panics when none does. */
    method Get(requestedSize: nat) returns (p: PooledBytes)
      requires Valid() && buckets != [] && requestedSize <= MaxCapacity()
      modifies this
      ensures Valid() && Sizes(buckets) == old(Sizes(buckets))
      ensures p.bucketIndex < |buckets| && p.buf.len == requestedSize <= p.originalCapacity && requestedSize <= p.buf.capacity
      ensures p.originalCapacity == minLen || p.originalCapacity < 2 * requestedSize
      ensures forall bucket <- old(buckets) :: bucket.capacity >= requestedSize ==> p.originalCapacity <= bucket.capacity
      ensures var i := p.bucketIndex;
              var (buffer, bucket) := Taken(old(buckets[i]));
              && p.buf.capacity == buffer.capacity && p.originalCapacity == bucket.capacity
              && buckets == old(buckets)[i := bucket]
              && rented == old(rented)[i := old(rented[i]) + multiset{p}]
    {
      hide Ladder, Kept;
      var i := FindBucket(requestedSize);
      TakenIsKept(preAllocation, i, buckets[i], rented[i], requestedSize);
      var bucket := buckets[i];
      var buf := Buffer(bucket.capacity, 0);
      if bucket.buffers != [] {
        buf := bucket.buffers[|bucket.buffers| - 1];
        bucket := bucket.(buffers := bucket.buffers[..|bucket.buffers| - 1]);
      }
      ghost var sizes := Sizes(buckets);
      buckets := buckets[i := bucket];
      p := PooledBytes(buf.(len := requestedSize), bucket.capacity, i);
      rented := rented[i := rented[i] + multiset{p}];
      assert Sizes(buckets) == sizes;
    }

    /** `PooledBytes::drop`: the buffer rests again at full length, or is let go when its bucket has no room. */
    method Release(p: PooledBytes)
      requires Valid() && p.bucketIndex < |buckets| && p in rented[p.bucketIndex]
      modifies this
      ensures Valid() && Sizes(buckets) == old(Sizes(buckets))
      ensures var i := p.bucketIndex;
              && buckets == old(buckets)[i := Rested(old(buckets[i]), Buffer(p.buf.capacity, old(buckets[i].capacity)))]
              && rented == old(rented)[i := old(rented[i]) - multiset{p}]
    {
      hide Ladder;
      var i := p.bucketIndex;
      RestedIsKept(preAllocation, i, buckets[i], rented[i], p);
      assert p.originalCapacity == buckets[i].capacity by {
        assert Kept(preAllocation, i, buckets[i], rented[i]);
      }
      hide Kept;
      ghost var sizes := Sizes(buckets);
      ReturnBuffer(i, p.buf.(len := p.originalCapacity));
      rented := rented[i := rented[i] - multiset{p}];
      assert Sizes(buckets) == sizes;
    }

    method ReturnBuffer(bucketIndex: nat, buffer: Buffer)
      requires bucketIndex < |buckets|
      modifies this`buckets
      ensures buckets == old(buckets)[bucketIndex := Rested(old(buckets[bucketIndex]), buffer)]
    {
      var bucket := buckets[bucketIndex];
      if |bucket.buffers| < bucket.ceiling {
        buckets := buckets[bucketIndex := bucket.(buffers := bucket.buffers + [buffer])];
      }
    }

    /** Once everything is returned, every bucket holds what it started with, and no more than its list has room for. */
    lemma FullAgain(i: nat)
      requires Valid() && i < |buckets| && rented[i] == multiset{}
      ensures preAllocation <= |buckets[i].buffers| <= buckets[i].ceiling
      ensures forall b <- buckets[i].buffers :: b.capacity >= minLen * Pow2(i)
    {
      LadderIsPowers(Sizes(buckets), minLen, maxLen, i);
    }

    /**
     * The documented panic condition, a request above `MaxCapacity`, is the real one unless the pool has no bucket and
     * the request is for nothing.
     */
    lemma PanicIsDocumented(n: nat)
      requires Valid()
      ensures ((exists i :: 0 <= i < |buckets| && Sizes(buckets)[i] >= n) <==> n <= MaxCapacity()) <==> minLen <= maxLen || n > 0
    {
      ServedMeans(Sizes(buckets), minLen, maxLen, n);
    }
  }
}
