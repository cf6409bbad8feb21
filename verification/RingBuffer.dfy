/**
 * The lock-free single-producer single-consumer ring (src/util/ring_buffer.c) as interleaved steps.
 *
 * A write loads both positions, copies byte by byte and publishes; a read does the same.  Steps of the
 * two sides interleave freely, positions wrap at 2^64 as size_t does, and a load of the other side's
 * position may return any value it has had since this side last looked, which covers every outcome of
 * the acquire loads.
 */
module SpscRing {
  import opened Bytes
  import Circular

  datatype Producer = NotWriting | Writing(chunk: Bytes, copied: nat)
  datatype Consumer = NotReading | Reading(len: nat, buf: Bytes)

  /**
   * `produced` and `consumed` are all the bytes ever published and ever handed out; `prodSeen` and
   * `consSeen` the counts of the other side that each side saw last.
   */
  datatype State = State(data: Bytes, writePos: nat, readPos: nat, prod: Producer, cons: Consumer,
                         produced: Bytes, consumed: Bytes, prodSeen: nat, consSeen: nat)

  datatype Action =
    | WriteLoad(d: Bytes, seen: nat)
    | WriteByte
    | WritePublish
    | ReadLoad(len: nat, seen: nat)
    | ReadByte
    | ReadPublish

  /** The slot `j` bytes after a position: `pos & mask`, wrapping at the end of the array. */
  function Slot(pos: nat, j: nat, cap: nat): (i: nat)
    requires 0 < cap && j < cap
    ensures i < cap
  {
    var idx := pos % cap;
    if j < cap - idx then idx + j else j - (cap - idx)
  }

  predicate Enabled(s: State, a: Action)
  {
    match a
    case WriteLoad(_, seen) => s.prod.NotWriting? && s.prodSeen <= seen <= |s.consumed|
    case WriteByte => s.prod.Writing? && s.prod.copied < |s.prod.chunk| && s.prod.copied < |s.data|
    case WritePublish => s.prod.Writing? && s.prod.copied == |s.prod.chunk|
    case ReadLoad(_, seen) => s.cons.NotReading? && s.consSeen <= seen <= |s.produced|
    case ReadByte => s.cons.Reading? && |s.cons.buf| < s.cons.len && |s.cons.buf| < |s.data|
    case ReadPublish => s.cons.Reading? && |s.cons.buf| == s.cons.len
  }

  /** One atomic step of `nxp_ring_buffer_write` or `nxp_ring_buffer_read`. */
  function Next(s: State, a: Action): (s': State)
    requires Enabled(s, a)
  {
    match a
    case WriteLoad(d, seen) =>
      var available := Sub64(|s.data|, Sub64(s.writePos, seen % TWO_64));
      var len := Min(|d|, available);
      s.(prodSeen := seen, prod := if len == 0 then NotWriting else Writing(d[..len], 0))
    case WriteByte =>
      var slot := Slot(s.writePos, s.prod.copied, |s.data|);
      s.(data := s.data[slot := s.prod.chunk[s.prod.copied]], prod := s.prod.(copied := s.prod.copied + 1))
    case WritePublish =>
      s.(writePos := (s.writePos + |s.prod.chunk|) % TWO_64, produced := s.produced + s.prod.chunk, prod := NotWriting)
    case ReadLoad(n, seen) =>
      var available := Sub64(seen % TWO_64, s.readPos);
      var len := Min(n, available);
      s.(consSeen := seen, cons := if len == 0 then NotReading else Reading(len, []))
    case ReadByte =>
      var slot := Slot(s.readPos, |s.cons.buf|, |s.data|);
      s.(cons := s.cons.(buf := s.cons.buf + [s.data[slot]]))
    case ReadPublish =>
      s.(readPos := (s.readPos + s.cons.len) % TWO_64, consumed := s.consumed + s.cons.buf, cons := NotReading)
  }

  predicate ValidCapacity(cap: nat)
  {
    0 < cap < TWO_64 && TWO_64 % cap == 0
  }

  function Start(data: Bytes): (s: State)
  {
    State(data, 0, 0, NotWriting, NotReading, [], [], 0, 0)
  }

  // ---------- Wrapped positions ----------

  lemma WrappedDifference(a: nat, b: nat)
    requires b <= a < b + TWO_64
    ensures Sub64(a % TWO_64, b % TWO_64) == a - b
  {
  }

  lemma SmallDifference(a: nat, b: nat)
    requires b <= a < TWO_64
    ensures Sub64(a, b) == a - b
  {
  }

  lemma Capacity(cap: nat)
    requires ValidCapacity(cap)
    ensures 0 < cap < TWO_64
  {
  }

  lemma WrappedSum(a: nat, n: nat)
    ensures (a % TWO_64 + n) % TWO_64 == (a + n) % TWO_64
  {
  }

  lemma WrappedIndex(a: nat, cap: nat)
    requires ValidCapacity(cap)
    ensures (a % TWO_64) % cap == a % cap
  {
    var k, q, r := TWO_64 / cap, a / TWO_64, a % TWO_64;
    var q2, r2 := r / cap, r % cap;
    assert TWO_64 == k * cap;
    assert a == q * (k * cap) + (q2 * cap + r2);
    assert q * (k * cap) == (q * k) * cap;
    assert a == (q * k + q2) * cap + r2;
    ModUnique(a, cap, q * k + q2, r2);
  }

  lemma SlotIsOffset(pos: nat, j: nat, cap: nat)
    requires ValidCapacity(cap) && j < cap
    ensures Slot(pos % TWO_64, j, cap) == (pos + j) % cap
  {
    WrappedIndex(pos, cap);
    Circular.Wrap(pos, j, cap);
  }

  /** Offsets less than a lap apart have different slots. */
  lemma DistinctSlots(a: nat, b: nat, cap: nat)
    requires 0 < cap && a < b < a + cap
    ensures a % cap != b % cap
  {
    Circular.Wrap(a, b - a, cap);
  }

  // ---------- The invariant ----------

  ghost predicate Counters(s: State)
  {
    && ValidCapacity(|s.data|)
    && s.writePos == |s.produced| % TWO_64 && s.readPos == |s.consumed| % TWO_64
    && s.prodSeen <= |s.consumed| <= s.consSeen <= |s.produced| <= s.prodSeen + |s.data|
  }

  ghost predicate Inv(s: State)
  {
    && Counters(s)
    && s.consumed <= s.produced
    && Circular.Buffers(s.data, s.produced, |s.consumed|, |s.produced|)
    && (s.prod.Writing? ==>
          && 0 < |s.prod.chunk| && |s.produced| + |s.prod.chunk| <= s.prodSeen + |s.data|
          && s.prod.copied <= |s.prod.chunk|
          && forall j :: 0 <= j < s.prod.copied ==> s.data[(|s.produced| + j) % |s.data|] == s.prod.chunk[j])
    && (s.cons.Reading? ==>
          && |s.consumed| + s.cons.len <= s.consSeen && |s.cons.buf| <= s.cons.len
          && s.cons.buf == s.produced[|s.consumed|..|s.consumed| + |s.cons.buf|])
  }

  lemma InvStart(data: Bytes)
    requires ValidCapacity(|data|)
    ensures Inv(Start(data))
  {
  }

  lemma WriteLoadKeeps(s: State, a: Action)
    requires Inv(s) && a.WriteLoad? && Enabled(s, a)
    ensures Inv(Next(s, a))
  {
    hide Circular.Buffers, Sub64, ValidCapacity;
    Capacity(|s.data|);
    WrappedDifference(|s.produced|, a.seen);
    SmallDifference(|s.data|, |s.produced| - a.seen);
  }

  /** Copying a byte overwrites no byte that is still to be read. */
  lemma WriteByteSpares(s: State, i: nat)
    requires Inv(s) && Enabled(s, WriteByte) && |s.consumed| <= i < |s.produced| + s.prod.copied
    ensures Next(s, WriteByte).data[i % |s.data|] == s.data[i % |s.data|]
  {
    hide Circular.Buffers;
    var k := s.prod.copied;
    SlotIsOffset(|s.produced|, k, |s.data|);
    DistinctSlots(i, |s.produced| + k, |s.data|);
  }

  lemma WriteByteKeeps(s: State)
    requires Inv(s) && Enabled(s, WriteByte)
    ensures Inv(Next(s, WriteByte))
  {
    var s', k := Next(s, WriteByte), s.prod.copied;
    SlotIsOffset(|s.produced|, k, |s.data|);
    forall i | |s.consumed| <= i < |s.produced| ensures s'.data[i % |s.data|] == s.produced[i] {
      WriteByteSpares(s, i);
    }
    forall j | 0 <= j < k ensures s'.data[(|s.produced| + j) % |s.data|] == s.prod.chunk[j] {
      WriteByteSpares(s, |s.produced| + j);
    }
  }

  /** The bytes copied so far extend what the buffer holds of the stream. */
  lemma PublishedBytes(data: Bytes, produced: Bytes, chunk: Bytes, lo: nat)
    requires Circular.Buffers(data, produced, lo, |produced|) && |produced| + |chunk| <= lo + |data|
    requires forall j :: 0 <= j < |chunk| ==> data[(|produced| + j) % |data|] == chunk[j]
    ensures Circular.Buffers(data, produced + chunk, lo, |produced + chunk|)
  {
    forall i | lo <= i < |produced + chunk| ensures data[i % |data|] == (produced + chunk)[i] {
      if i >= |produced| {
        assert data[(|produced| + (i - |produced|)) % |data|] == chunk[i - |produced|];
      }
    }
  }

  lemma WritePublishKeeps(s: State)
    requires Inv(s) && Enabled(s, WritePublish)
    ensures Inv(Next(s, WritePublish))
  {
    hide Circular.Buffers, ValidCapacity;
    WrappedSum(|s.produced|, |s.prod.chunk|);
    PublishedBytes(s.data, s.produced, s.prod.chunk, |s.consumed|);
  }

  lemma ReadLoadKeeps(s: State, a: Action)
    requires Inv(s) && a.ReadLoad? && Enabled(s, a)
    ensures Inv(Next(s, a))
  {
    hide Circular.Buffers;
    WrappedDifference(a.seen, |s.consumed|);
  }

  lemma ReadByteKeeps(s: State)
    requires Inv(s) && Enabled(s, ReadByte)
    ensures Inv(Next(s, ReadByte))
  {
    hide Circular.Buffers, ValidCapacity, Slot;
    var k := |s.cons.buf|;
    SlotIsOffset(|s.consumed|, k, |s.data|);
    Circular.BufferedAt(s.data, s.produced, |s.consumed|, |s.produced|, |s.consumed| + k);
    SliceGrows(s.produced, |s.consumed|, |s.consumed| + k);
  }

  lemma ReadPublishKeeps(s: State)
    requires Inv(s) && Enabled(s, ReadPublish)
    ensures Inv(Next(s, ReadPublish))
  {
    hide Circular.Buffers;
    WrappedSum(|s.consumed|, s.cons.len);
    var n := |s.consumed| + s.cons.len;
    assert s.consumed + s.cons.buf == s.produced[..n];
    Circular.BuffersMore(s.data, s.produced, s.produced, |s.consumed|, n, |s.produced|);
  }

  lemma StepKeeps(s: State, a: Action)
    requires Inv(s) && Enabled(s, a)
    ensures Inv(Next(s, a))
  {
    hide Inv, Next, Enabled;
    match a
    case WriteLoad(_, _) => WriteLoadKeeps(s, a);
    case WriteByte => WriteByteKeeps(s);
    case WritePublish => WritePublishKeeps(s);
    case ReadLoad(_, _) => ReadLoadKeeps(s, a);
    case ReadByte => ReadByteKeeps(s);
    case ReadPublish => ReadPublishKeeps(s);
  }

  // ---------- Every interleaving ----------

  predicate IsRun(run: seq<State>, actions: seq<Action>)
  {
    && |run| == |actions| + 1
    && (forall i :: 0 <= i < |actions| ==> Enabled(run[i], actions[i]) && run[i + 1] == Next(run[i], actions[i]))
  }

  /** The byte queue that the ring implements: published and not yet handed out. */
  function Queue(s: State): (q: Bytes)
    requires |s.consumed| <= |s.produced|
  {
    s.produced[|s.consumed|..]
  }

  /**
   * In every interleaving the ring is a byte queue: its contents never exceed the capacity, and what the
   * reader was handed is always a prefix of what the writer published.
   */
  lemma {:induction false} EveryInterleaving(run: seq<State>, actions: seq<Action>, data: Bytes, i: nat)
    requires ValidCapacity(|data|) && IsRun(run, actions) && run[0] == Start(data) && i < |run|
    ensures Inv(run[i])
    ensures run[i].consumed <= run[i].produced && |Queue(run[i])| <= |data| == |run[i].data|
  {
    hide Next, Enabled;
    if i == 0 {
      InvStart(data);
    } else {
      EveryInterleaving(run, actions, data, i - 1);
      StepKeeps(run[i - 1], actions[i - 1]);
      SameCapacity(run[i - 1], actions[i - 1]);
    }
  }

  lemma SameCapacity(s: State, a: Action)
    requires Enabled(s, a)
    ensures |Next(s, a).data| == |s.data|
  {
  }

  /**
   * Linearization: the queue changes only when a position is published.  Publishing a write appends the
   * bytes accepted; publishing a read removes from the front exactly the bytes handed to the reader.
   */
  lemma PublishIsTheQueueOperation(s: State, a: Action)
    requires Inv(s) && Enabled(s, a)
    ensures |Next(s, a).consumed| <= |Next(s, a).produced|
    ensures a.ReadPublish? ==> s.cons.len <= |Queue(s)| && s.cons.buf == Queue(s)[..s.cons.len]
    ensures Queue(Next(s, a)) ==
            if a.WritePublish? then Queue(s) + s.prod.chunk
            else if a.ReadPublish? then Queue(s)[s.cons.len..]
            else Queue(s)
  {
    hide Circular.Buffers, Counters, ValidCapacity, Slot, Sub64;
    StepKeeps(s, a);
  }

  /** What a load lets through: as much of the data as fits beside what the producer still counts as unread. */
  lemma WriteTakesAPrefix(s: State, d: Bytes, seen: nat)
    requires Inv(s) && Enabled(s, WriteLoad(d, seen))
    ensures var s' := Next(s, WriteLoad(d, seen));
            var n := Min(|d|, |s.data| - (|s.produced| - seen));
            s'.prod == if n == 0 then NotWriting else Writing(d[..n], 0)
  {
    hide Circular.Buffers, Sub64, ValidCapacity;
    Capacity(|s.data|);
    WrappedDifference(|s.produced|, seen);
    SmallDifference(|s.data|, |s.produced| - seen);
  }

  /**
   * What a load offers: no more than was asked for and than the consumer has seen published, from the front of the
   * queue.
   */
  lemma ReadTakesAPrefix(s: State, len: nat, seen: nat)
    requires Inv(s) && Enabled(s, ReadLoad(len, seen))
    ensures var s' := Next(s, ReadLoad(len, seen));
            var n := Min(len, seen - |s.consumed|);
            && s'.cons == (if n == 0 then NotReading else Reading(n, []))
            && n <= |Queue(s)|
  {
    hide Circular.Buffers;
    WrappedDifference(seen, |s.consumed|);
  }

  // ---------- One call at a time ----------

  class RingBuffer {
    var data: array<Byte>
    var writePos: nat
    var readPos: nat
    ghost var produced: Bytes
    ghost var consumed: Bytes

    ghost predicate Valid()
      reads this, data
    {
      && ValidCapacity(data.Length)
      && writePos == |produced| % TWO_64 && readPos == |consumed| % TWO_64
      && consumed <= produced
      && Circular.Buffers(data[..], produced, |consumed|, |produced|)
    }

    /** The contents as a queue. */
    ghost function Contents(): (q: Bytes)
      reads this
      requires consumed <= produced
    {
      produced[|consumed|..]
    }

    constructor (capacity: nat)
      requires ValidCapacity(capacity)
      ensures Valid() && fresh(data) && data.Length == capacity && Contents() == []
    {
      data := new Byte[capacity](_ => 0);
      writePos, readPos := 0, 0;
      produced, consumed := [], [];
    }

    /** `nxp_ring_buffer_write`: appends as much as fits. */
    method Write(d: Bytes) returns (n: nat)
      requires Valid()
      modifies this`writePos, this`produced, data
      ensures Valid()
      ensures n == Min(|d|, data.Length - |old(Contents())|)
      ensures Contents() == old(Contents()) + d[..n]
    {
      hide Circular.Buffers, Circular.Put, ValidCapacity, Sub64;
      Occupancy(|produced|, |consumed|, data[..], produced);
      var available := Sub64(data.Length, Sub64(writePos, readPos));
      n := Min(|d|, available);
      if n == 0 {
        return;
      }
      AfterWrite(data[..], produced, |consumed|, d[..n]);
      Circular.CopyIn(data, writePos, d[..n]);
      writePos := (writePos + n) % TWO_64;
      produced := produced + d[..n];
    }

    /** `nxp_ring_buffer_read`: removes and returns the front. */
    method Read(len: nat) returns (buf: Bytes)
      requires Valid()
      modifies this`readPos, this`consumed
      ensures Valid()
      ensures |buf| == Min(len, |old(Contents())|)
      ensures old(Contents()) == buf + Contents()
    {
      hide Circular.Buffers, Circular.Get, ValidCapacity, Sub64;
      Occupancy(|produced|, |consumed|, data[..], produced);
      var n := Min(len, Sub64(writePos, readPos));
      AfterRead(data[..], produced, |consumed|, n);
      buf := Circular.CopyOut(data, readPos, n);
      if n == 0 {
        return;
      }
      ReadMore(produced, consumed, n);
      readPos := (readPos + n) % TWO_64;
      consumed := consumed + buf;
    }
  }

  /** The space computed from wrapped positions is the true one. */
  lemma Occupancy(w: nat, r: nat, ring: Bytes, s: Bytes)
    requires ValidCapacity(|ring|) && Circular.Buffers(ring, s, r, w)
    ensures 0 < |ring| && Sub64(w % TWO_64, r % TWO_64) == w - r <= |ring|
    ensures Sub64(|ring|, w - r) == |ring| - (w - r)
  {
    WrappedDifference(w, r);
  }

  lemma AfterWrite(ring: Bytes, produced: Bytes, lo: nat, d: Bytes)
    requires ValidCapacity(|ring|) && Circular.Buffers(ring, produced, lo, |produced|)
    requires |produced| + |d| <= lo + |ring| && |d| <= |ring|
    ensures Circular.Buffers(Circular.Put(ring, |produced| % TWO_64, d), produced + d, lo, |produced + d|)
    ensures (|produced| % TWO_64 + |d|) % TWO_64 == |produced + d| % TWO_64
  {
    hide Circular.Buffers, Circular.Put;
    var s := produced + d;
    WrappedIndex(|produced|, |ring|);
    WrappedSum(|produced|, |d|);
    SamePut(ring, |produced| % TWO_64, |produced|, d);
    BuffersBound(ring, produced, lo, |produced|);
    Circular.BuffersMore(ring, produced, s, lo, lo, |produced|);
    Circular.PutBuffers(ring, s, lo, |produced|, |produced|, d);
  }

  lemma ReadMore(produced: Bytes, consumed: Bytes, n: nat)
    requires consumed <= produced && |consumed| + n <= |produced|
    ensures var buf := produced[|consumed|..|consumed| + n];
            && consumed + buf == produced[..|consumed| + n]
            && produced[|consumed|..] == buf + produced[|consumed| + n..]
  {
  }

  lemma AfterRead(ring: Bytes, produced: Bytes, lo: nat, n: nat)
    requires ValidCapacity(|ring|) && Circular.Buffers(ring, produced, lo, |produced|) && lo + n <= |produced| &&
             n <= |ring|
    ensures Circular.Get(ring, lo % TWO_64, n) == produced[lo..lo + n]
    ensures Circular.Buffers(ring, produced, lo + n, |produced|) && (lo % TWO_64 + n) % TWO_64 == (lo + n) % TWO_64
  {
    hide Circular.Buffers, Circular.Get;
    WrappedIndex(lo, |ring|);
    WrappedSum(lo, n);
    SameGet(ring, lo % TWO_64, lo, n);
    Circular.GetBuffered(ring, produced, lo, |produced|, lo, n);
    Circular.BuffersMore(ring, produced, produced, lo, lo + n, |produced|);
  }

  lemma BuffersBound(ring: Bytes, s: Bytes, lo: nat, hi: nat)
    requires Circular.Buffers(ring, s, lo, hi)
    ensures lo <= hi <= |s|
  {
  }

  lemma SamePut(ring: Bytes, a: nat, b: nat, d: Bytes)
    requires 0 < |ring| && |d| <= |ring| && a % |ring| == b % |ring|
    ensures Circular.Put(ring, a, d) == Circular.Put(ring, b, d)
  {
    hide Circular.Put, Overwrite;
    var pos := a % |ring|;
    if |d| <= |ring| - pos {
      Circular.PutInOnePiece(ring, a, d, pos);
      Circular.PutInOnePiece(ring, b, d, pos);
    } else {
      Circular.PutInTwoPieces(ring, a, d, pos, |ring| - pos);
      Circular.PutInTwoPieces(ring, b, d, pos, |ring| - pos);
    }
  }

  lemma SameGet(ring: Bytes, a: nat, b: nat, n: nat)
    requires 0 < |ring| && n <= |ring| && a % |ring| == b % |ring|
    ensures Circular.Get(ring, a, n) == Circular.Get(ring, b, n)
  {
  }
}
