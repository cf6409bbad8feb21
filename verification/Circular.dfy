/**
 * Circular byte buffers addressed by ever-growing offsets: byte `i` of a stream lives in slot
 * `i % capacity`.  Both the stream buffers and the SPSC ring copy in two pieces around the end.
 */
module Circular {
  import opened Bytes

  /** Offset arithmetic: stepping at most one lap from `off` wraps at most once. */
  lemma Wrap(off: nat, j: nat, cap: nat)
    requires 0 < cap && j <= cap
    ensures (off + j) % cap == if off % cap + j < cap then off % cap + j else off % cap + j - cap
  {
    var q, pos := off / cap, off % cap;
    assert off == q * cap + pos;
    if pos + j < cap {
      ModUnique(off + j, cap, q, pos + j);
    } else {
      assert off + j == (q + 1) * cap + (pos + j - cap);
      ModUnique(off + j, cap, q + 1, pos + j - cap);
    }
  }

  /** The buffer after `d` is copied to the slots of offsets `off ..`, in two pieces if they wrap. */
  function Put(ring: Bytes, off: nat, d: Bytes): (r: Bytes)
    requires 0 < |ring| && |d| <= |ring|
    ensures |r| == |ring|
  {
    var pos := off % |ring|;
    var first := |ring| - pos;
    if |d| <= first then ring[..pos] + d + ring[pos + |d|..]
    else d[first..] + ring[|d| - first..pos] + d[..first]
  }

  /** The `n` bytes at offsets `off ..`. */
  function Get(ring: Bytes, off: nat, n: nat): (d: Bytes)
    requires 0 < |ring| && n <= |ring|
    ensures |d| == n
  {
    var pos := off % |ring|;
    var first := |ring| - pos;
    if n <= first then ring[pos..pos + n] else ring[pos..] + ring[..n - first]
  }

  lemma PutWritten(ring: Bytes, off: nat, d: Bytes, j: nat)
    requires 0 < |ring| && j < |d| <= |ring|
    ensures Put(ring, off, d)[(off + j) % |ring|] == d[j]
  {
    Wrap(off, j, |ring|);
  }

  lemma PutUntouched(ring: Bytes, off: nat, d: Bytes, j: nat)
    requires 0 < |ring| && |d| <= j < |ring|
    ensures Put(ring, off, d)[(off + j) % |ring|] == ring[(off + j) % |ring|]
  {
    Wrap(off, j, |ring|);
  }

  lemma GetAt(ring: Bytes, off: nat, n: nat, j: nat)
    requires 0 < |ring| && j < n <= |ring|
    ensures Get(ring, off, n)[j] == ring[(off + j) % |ring|]
  {
    Wrap(off, j, |ring|);
  }

  /** The buffer holds bytes `lo .. hi` of the stream `s`. */
  ghost predicate Buffers(ring: Bytes, s: Bytes, lo: nat, hi: nat)
  {
    && 0 < |ring| && lo <= hi <= |s| && hi - lo <= |ring|
    && forall i :: lo <= i < hi ==> ring[i % |ring|] == s[i]
  }

  lemma BufferedAt(ring: Bytes, s: Bytes, lo: nat, hi: nat, i: nat)
    requires Buffers(ring, s, lo, hi) && lo <= i < hi
    ensures 0 < |ring| && i < |s| && ring[i % |ring|] == s[i]
  {
  }

  /** Byte `i` after the copy, for any offset within a lap of the copied piece. */
  lemma PutAt(ring: Bytes, off: nat, d: Bytes, i: nat)
    requires 0 < |ring| && |d| <= |ring|
    requires off + |d| <= i + |ring| && i < off + |ring|
    ensures Put(ring, off, d)[i % |ring|] == if off <= i < off + |d| then d[i - off] else ring[i % |ring|]
  {
    hide Put;
    if off <= i < off + |d| {
      PutWritten(ring, off, d, i - off);
    } else if i < off {
      Wrap(i, |ring|, |ring|);
      PutUntouched(ring, off, d, i + |ring| - off);
    } else {
      PutUntouched(ring, off, d, i - off);
    }
  }

  /** Copying in a piece of the stream that starts inside the held part and ends within a lap of its start. */
  lemma PutBuffers(ring: Bytes, s: Bytes, lo: nat, hi: nat, off: nat, d: Bytes)
    requires Buffers(ring, s, lo, hi) && lo <= off <= hi
    requires off + |d| <= |s| && off + |d| <= lo + |ring| && d == s[off..off + |d|]
    ensures Buffers(Put(ring, off, d), s, lo, if hi < off + |d| then off + |d| else hi)
  {
    hide Put;
    var hi' := if hi < off + |d| then off + |d| else hi;
    forall i | lo <= i < hi' ensures Put(ring, off, d)[i % |ring|] == s[i] {
      PutAt(ring, off, d, i);
    }
  }

  lemma GetBuffered(ring: Bytes, s: Bytes, lo: nat, hi: nat, off: nat, n: nat)
    requires Buffers(ring, s, lo, hi) && lo <= off && off + n <= hi
    ensures Get(ring, off, n) == s[off..off + n]
  {
    forall j | 0 <= j < n ensures Get(ring, off, n)[j] == s[off + j] {
      GetAt(ring, off, n, j);
    }
  }

  /** The stream may grow, and the front of the held part may be given up. */
  lemma BuffersMore(ring: Bytes, s: Bytes, s': Bytes, lo: nat, lo': nat, hi: nat)
    requires Buffers(ring, s, lo, hi) && s <= s' && lo <= lo' <= hi
    ensures Buffers(ring, s', lo', hi)
  {
  }

  // ---------- The last lap ----------

  /** Where the last lap of `w` bytes begins. */
  function LapStart(cap: nat, w: nat): (lo: nat)
  {
    if w <= cap then 0 else w - cap
  }

  /** The buffer holds the last bytes of `s`, as many as it has slots. */
  ghost predicate HoldsLap(ring: Bytes, s: Bytes)
  {
    Buffers(ring, s, LapStart(|ring|, |s|), |s|)
  }

  /** Appending at most a lap keeps the last lap held, whatever happens to the bytes before it. */
  lemma PutKeepsLap(ring: Bytes, s: Bytes, d: Bytes)
    requires HoldsLap(ring, s) && |d| <= |ring|
    ensures 0 < |ring| && HoldsLap(Put(ring, |s|, d), s + d)
  {
    hide Put;
    var lo, s' := LapStart(|ring|, |s + d|), s + d;
    BuffersMore(ring, s, s', LapStart(|ring|, |s|), lo, |s|);
    PutBuffers(ring, s', lo, |s|, |s|, d);
  }

  /** Reading the last lap returns the bytes of `s`. */
  lemma GetFromLap(ring: Bytes, s: Bytes, off: nat, n: nat)
    requires HoldsLap(ring, s) && off + n <= |s| <= off + |ring|
    ensures n <= |ring| && Get(ring, off, n) == s[off..off + n]
  {
    hide Get;
    GetBuffered(ring, s, LapStart(|ring|, |s|), |s|, off, n);
  }

  lemma PutInOnePiece(ring: Bytes, off: nat, d: Bytes, pos: nat)
    requires 0 < |ring| && pos == off % |ring| && |d| <= |ring| - pos
    ensures Put(ring, off, d) == Overwrite(ring, pos, d)
  {
  }

  lemma PutInTwoPieces(ring: Bytes, off: nat, d: Bytes, pos: nat, first: nat)
    requires 0 < |ring| && pos == off % |ring| && first == |ring| - pos < |d| <= |ring|
    ensures Put(ring, off, d) == Overwrite(Overwrite(ring, pos, d[..first]), 0, d[first..])
  {
    hide Overwrite;
    TwoPieces(ring, pos, d);
  }

  lemma TwoPieces(ring: Bytes, pos: nat, d: Bytes)
    requires pos < |ring| && |ring| - pos < |d| <= |ring|
    ensures var first := |ring| - pos;
            Overwrite(Overwrite(ring, pos, d[..first]), 0, d[first..]) ==
            d[first..] + ring[|d| - first..pos] + d[..first]
  {
    var first := |ring| - pos;
    assert Overwrite(ring, pos, d[..first]) == ring[..pos] + d[..first];
    assert (ring[..pos] + d[..first])[|d| - first..] == ring[|d| - first..pos] + d[..first];
  }

  /** Two memcpy calls into the buffer. */
  method CopyIn(ring: array<Byte>, off: nat, d: Bytes)
    requires 0 < ring.Length && |d| <= ring.Length
    modifies ring
    ensures ring[..] == Put(old(ring[..]), off, d)
  {
    hide Put, Overwrite;
    var pos := off % ring.Length;
    var first := ring.Length - pos;
    if |d| <= first {
      PutInOnePiece(ring[..], off, d, pos);
      CopyInto(ring, pos, d);
    } else {
      PutInTwoPieces(ring[..], off, d, pos, first);
      CopyInto(ring, pos, d[..first]);
      CopyInto(ring, 0, d[first..]);
    }
  }

  /** Two memcpy calls out of the buffer. */
  method CopyOut(ring: array<Byte>, off: nat, n: nat) returns (d: Bytes)
    requires 0 < ring.Length && n <= ring.Length
    ensures d == Get(ring[..], off, n)
  {
    var pos := off % ring.Length;
    var first := ring.Length - pos;
    d := if n <= first then ring[pos..pos + n] else ring[pos..] + ring[..n - first];
  }
}
