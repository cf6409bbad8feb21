/** Packet-number truncation and reconstruction (src/core/packet.c; Appendix A.2 and A.3 of RFC 9000). */
module PacketNumbers {
  import opened Bytes

  const LIMIT: nat := 0x4000_0000_0000_0000

  /** The number of values that `len` bytes can tell apart. */
  function Window(len: nat): (w: nat)
    requires 1 <= len <= 4
    ensures w > 0 && w % 2 == 0
  {
    if len == 1 then 0x100 else if len == 2 then 0x1_0000 else if len == 3 then 0x100_0000 else 0x1_0000_0000
  }

  function HalfWindow(len: nat): (h: nat)
    requires 1 <= len <= 4
    ensures 2 * h == Window(len)
  {
    Window(len) / 2
  }

  /** The packet number as it is sent: its low `len` bytes. */
  function Truncate(pn: nat, len: nat): (t: nat)
    requires 1 <= len <= 4
    ensures t < Window(len)
  {
    pn % Window(len)
  }

  /** `nxp_pkt_num_len`, with the wrapping subtraction of uint64_t. */
  function NumLen(pn: nat, largestAcked: nat): (len: nat)
    ensures 1 <= len <= 4
  {
    var unacked := Sub64(pn, largestAcked);
    if unacked < 0x80 then 1 else if unacked < 0x8000 then 2 else if unacked < 0x80_0000 then 3 else 4
  }

  /** `expected` with its low bytes replaced by the truncated number. */
  function Candidate(expected: nat, truncated: nat, len: nat): (c: nat)
    requires 1 <= len <= 4 && truncated < Window(len)
  {
    expected - expected % Window(len) + truncated
  }

  /** `nxp_pkt_decode_pkt_num` against the frontier `largest`. */
  function Reconstruct(largest: nat, truncated: nat, len: nat): (pn: nat)
    requires 1 <= len <= 4 && truncated < Window(len) && largest < LIMIT
  {
    var expected := largest + 1;
    Nearest(expected, Candidate(expected, truncated, len), Window(len), HalfWindow(len))
  }

  /** The candidate, or the number one window above or below it. */
  function Nearest(expected: nat, candidate: nat, win: nat, half: nat): (pn: nat)
  {
    if candidate + half <= expected && candidate + win < LIMIT then candidate + win
    else if candidate > expected + half && candidate >= win then candidate - win
    else candidate
  }

  /** Within half a window of the next expected number. */
  predicate Near(expected: nat, pn: nat, len: nat)
    requires 1 <= len <= 4
  {
    expected < pn + HalfWindow(len) && pn <= expected + HalfWindow(len)
  }

  /** Further away, but the nearer candidate would lie beyond the last or before the first packet number. */
  predicate AtTheEdge(expected: nat, pn: nat, len: nat)
    requires 1 <= len <= 4
  {
    && pn / Window(len) == expected / Window(len)
    && (|| (pn + HalfWindow(len) <= expected && pn + Window(len) >= LIMIT)
        || (pn > expected + HalfWindow(len) && pn < Window(len)))
  }

  /** The candidate agrees with the sent number in its low bytes and with the expected one in the others. */
  lemma CandidateIsClose(expected: nat, pn: nat, len: nat)
    requires 1 <= len <= 4
    ensures var c, w := Candidate(expected, Truncate(pn, len), len), Window(len);
      && expected < c + w && c < expected + w
      && (pn == c <==> pn / w == expected / w)
      && (pn == c || pn == c + w || pn == c - w || pn >= c + 2 * w || pn + 2 * w <= c)
  {
    var w := Window(len);
    var k := pn / w - expected / w;
    assert pn == w * (pn / w) + pn % w && expected == w * (expected / w) + expected % w;
    assert pn - Candidate(expected, Truncate(pn, len), len) == k * w;
    Multiples(k, w);
  }

  lemma Multiples(k: int, w: int)
    requires w > 0
    ensures k == 0 <==> k * w == 0
    ensures k * w == 0 || k * w == w || k * w == -w || k * w >= 2 * w || k * w <= -2 * w
  {
    if k >= 2 {
      assert k * w == 2 * w + (k - 2) * w;
    } else if k <= -2 {
      assert k * w == -2 * w + (k + 2) * w;
    }
  }

  lemma NearestIsExact(e: nat, c: nat, win: nat, half: nat, pn: nat)
    requires 2 * half == win > 0 && e < c + win && c < e + win && pn < LIMIT
    requires pn == c || pn == c + win || pn == c - win || pn >= c + 2 * win || pn + 2 * win <= c
    ensures Nearest(e, c, win, half) == pn <==>
      || (e < pn + half && pn <= e + half)
      || (pn == c && ((pn + half <= e && pn + win >= LIMIT) || (pn > e + half && pn < win)))
  {
  }

  /**
   * Reconstruction returns the number that was sent exactly when it is near the expected one, or at an edge of the
   * number space.
   */
  lemma ReconstructionIsExact(largest: nat, pn: nat, len: nat)
    requires largest < LIMIT && pn < LIMIT && 1 <= len <= 4
    ensures Reconstruct(largest, Truncate(pn, len), len) == pn
      <==> Near(largest + 1, pn, len) || AtTheEdge(largest + 1, pn, len)
  {
    hide Candidate, Window, Truncate, Nearest;
    CandidateIsClose(largest + 1, pn, len);
    var w := Window(len);
    NearestIsExact(largest + 1, Candidate(largest + 1, Truncate(pn, len), len), w, HalfWindow(len), pn);
  }

  /** What a sender that knows `acked` sends is understood by every receiver between `acked` and half a window ahead. */
  lemma SentNumberIsUnderstood(pn: nat, acked: nat, largest: nat)
    requires pn < LIMIT && acked <= pn < acked + 0x8000_0000
    requires acked <= largest < LIMIT && largest + 2 <= pn + HalfWindow(NumLen(pn, acked))
    ensures var len := NumLen(pn, acked); Reconstruct(largest, Truncate(pn, len), len) == pn
  {
    var len := NumLen(pn, acked);
    assert Near(largest + 1, pn, len);
    ReconstructionIsExact(largest, pn, len);
  }

  /**
   * A shorter length is enough for a receiver that is no further than `acked` exactly for numbers at most
   * half a window and one ahead, and for numbers below one window.
   */
  lemma LengthIsMinimal(pn: nat, acked: nat, len: nat)
    requires acked <= pn < LIMIT && 1 <= len < NumLen(pn, acked)
    ensures Reconstruct(acked, Truncate(pn, len), len) == pn <==> pn - acked <= HalfWindow(len) + 1 || pn < Window(len)
  {
    hide Reconstruct, Truncate;
    assert Sub64(pn, acked) == pn - acked;
    ReconstructionIsExact(acked, pn, len);
  }

  /** So two bytes are spent on numbers that one byte could carry, of both kinds. */
  lemma LengthIsNotAlwaysMinimal()
    ensures NumLen(0x180, 0x100) == 2 && Reconstruct(0x100, Truncate(0x180, 1), 1) == 0x180
    ensures NumLen(200, 0) == 2 && Reconstruct(0, Truncate(200, 1), 1) == 200
  {
    ReconstructionIsExact(0x100, 0x180, 1);
    ReconstructionIsExact(0, 200, 1);
  }
}
