/**
 * Received packet numbers as ranges, and the meaning of ACK frames (src/core/ack.c; section 19.3.1 of
 * RFC 9000).  Ranges are kept in descending order, at most 64 of them.
 */
module AckRanges {
  import opened Bytes
  import Frames
  import Varint

  const MAX_RECV_RANGES := 64

  datatype Range = Range(start: nat, end: nat)

  // ---------- Ranges as a set of packet numbers ----------

  /** Descending, disjoint and non-adjacent. */
  ghost predicate Normal(rs: seq<Range>)
  {
    && (forall i :: 0 <= i < |rs| ==> rs[i].start <= rs[i].end)
    && (forall i, j :: 0 <= i < j < |rs| ==> rs[j].end + 2 <= rs[i].start)
  }

  predicate Contains(r: Range, pn: nat)
  {
    r.start <= pn <= r.end
  }

  predicate Holds(rs: seq<Range>, pn: nat)
  {
    exists i :: 0 <= i < |rs| && Contains(rs[i], pn)
  }

  /** Next to a range, so that recording it takes no new slot. */
  predicate Touches(rs: seq<Range>, pn: nat)
  {
    exists i :: 0 <= i < |rs| && (pn == rs[i].end + 1 || pn + 1 == rs[i].start)
  }

  lemma HoldsTail(rs: seq<Range>, pn: nat)
    requires |rs| > 0
    ensures Holds(rs, pn) <==> Contains(rs[0], pn) || Holds(rs[1..], pn)
  {
    if Holds(rs, pn) {
      var i :| 0 <= i < |rs| && Contains(rs[i], pn);
      assert i > 0 ==> rs[1..][i - 1] == rs[i];
    }
    if Holds(rs[1..], pn) {
      var i :| 0 <= i < |rs[1..]| && Contains(rs[1..][i], pn);
      assert rs[i + 1] == rs[1..][i];
    }
  }

  /** A set of packet numbers has one normal representation. */
  lemma {:induction false} NormalIsUnique(a: seq<Range>, b: seq<Range>)
    requires Normal(a) && Normal(b)
    requires forall pn :: Holds(a, pn) <==> Holds(b, pn)
    ensures a == b
  {
    hide Normal, Holds;
    if a == [] || b == [] {
      FirstHeld(a);
      FirstHeld(b);
    } else {
      TailNormal(a);
      TailNormal(b);
      FirstRangeIsFixed(a, b);
      FirstRangeIsFixed(b, a);
      forall pn ensures Holds(a[1..], pn) <==> Holds(b[1..], pn) {
        HoldsTail(a, pn);
        HoldsTail(b, pn);
        BelowFirst(a, pn);
        BelowFirst(b, pn);
      }
      NormalIsUnique(a[1..], b[1..]);
      assert a == [a[0]] + a[1..] && b == [b[0]] + b[1..];
    }
  }

  lemma FirstHeld(a: seq<Range>)
    requires Normal(a)
    ensures a != [] <==> exists pn :: Holds(a, pn)
    ensures a != [] ==> Holds(a, a[0].end)
  {
    if a != [] {
      assert Contains(a[0], a[0].end);
      assert Holds(a, a[0].end);
    }
  }

  lemma BelowFirst(a: seq<Range>, pn: nat)
    requires Normal(a) && a != []
    ensures Holds(a[1..], pn) ==> pn + 2 <= a[0].start
    ensures Touches(a[1..], pn) ==> pn < a[0].start
  {
  }

  /** The first range of `a` reaches as far up and down as that of `b`. */
  lemma FirstRangeIsFixed(a: seq<Range>, b: seq<Range>)
    requires Normal(a) && Normal(b) && a != [] && b != []
    requires forall pn :: Holds(a, pn) <==> Holds(b, pn)
    ensures a[0].end >= b[0].end && (a[0].end == b[0].end ==> a[0].start <= b[0].start)
  {
    assert Contains(b[0], b[0].end);
    assert Holds(b, b[0].end);
    if a[0].end == b[0].end && a[0].start > b[0].start {
      var gap := a[0].start - 1;
      assert Contains(b[0], gap);
      assert Holds(b, gap);
    }
  }

  // ---------- Recording an arrival ----------

  /** Reference: insertion of a number into a normal list of ranges. */
  function Insert(rs: seq<Range>, pn: nat): (r: seq<Range>)
  {
    if rs == [] then [Range(pn, pn)]
    else if Contains(rs[0], pn) then rs
    else if pn == rs[0].end + 1 then [Range(rs[0].start, pn)] + rs[1..]
    else if pn + 1 == rs[0].start then
      if |rs| > 1 && rs[1].end + 1 == pn then [Range(rs[1].start, rs[0].end)] + rs[2..]
      else [Range(pn, rs[0].end)] + rs[1..]
    else if pn > rs[0].end then [Range(pn, pn)] + rs
    else [rs[0]] + Insert(rs[1..], pn)
  }

  /** `nxp_ack_on_pkt_recv` on the ranges: an isolated number is dropped when all slots are taken. */
  function Record(rs: seq<Range>, pn: nat): (r: seq<Range>)
  {
    if Dropped(rs, pn) then rs else Insert(rs, pn)
  }

  predicate Dropped(rs: seq<Range>, pn: nat)
  {
    !Holds(rs, pn) && !Touches(rs, pn) && |rs| >= MAX_RECV_RANGES
  }

  /** A number well below the first range goes in behind it. */
  lemma InsertBelow(rs: seq<Range>, pn: nat)
    requires rs != [] && pn + 1 < rs[0].start <= rs[0].end
    ensures Insert(rs, pn) == [rs[0]] + Insert(rs[1..], pn)
  {
  }

  /** Insertion adds exactly the number and keeps the list normal. */
  lemma {:induction false} InsertExact(rs: seq<Range>, pn: nat)
    requires Normal(rs)
    ensures Normal(Insert(rs, pn))
    ensures forall x :: Holds(Insert(rs, pn), x) <==> Holds(rs, x) || x == pn
  {
    hide Holds, Contains;
    if rs == [] {
      forall x ensures Holds(Insert(rs, pn), x) <==> Holds(rs, x) || x == pn {
        OneHeld(pn, x);
      }
    } else if pn + 1 < rs[0].start {
      hide Insert;
      InsertExact(rs[1..], pn);
      InsertBelow(rs, pn);
      var tail := Insert(rs[1..], pn);
      forall x: nat | Holds(tail, x) ensures x + 2 <= rs[0].start {
        BelowFirst(rs, x);
      }
      PrependNormal(rs[0], tail);
      forall x ensures Holds(Insert(rs, pn), x) <==> Holds(rs, x) || x == pn {
        HoldsTail(rs, x);
        HoldsTail([rs[0]] + tail, x);
        assert ([rs[0]] + tail)[1..] == tail;
      }
    } else {
      InsertAtFront(rs, pn);
    }
  }

  lemma OneHeld(pn: nat, x: nat)
    ensures !Holds([], x) && (Holds([Range(pn, pn)], x) <==> x == pn)
  {
    HoldsTail([Range(pn, pn)], x);
  }

  /** A range above everything a normal list holds goes in front of it. */
  lemma PrependNormal(r: Range, rs: seq<Range>)
    requires Normal(rs) && r.start <= r.end
    requires forall x: nat :: Holds(rs, x) ==> x + 2 <= r.start
    ensures Normal([r] + rs)
  {
    forall j | 0 <= j < |rs| ensures rs[j].end + 2 <= r.start {
      assert Contains(rs[j], rs[j].end);
      assert Holds(rs, rs[j].end);
    }
  }

  lemma InsertAtFront(rs: seq<Range>, pn: nat)
    requires Normal(rs) && rs != [] && pn + 1 >= rs[0].start
    ensures Normal(Insert(rs, pn))
    ensures forall x :: Holds(Insert(rs, pn), x) <==> Holds(rs, x) || x == pn
  {
    hide Holds, Insert, Normal;
    InsertAtFrontNormal(rs, pn);
    forall x ensures Holds(Insert(rs, pn), x) <==> Holds(rs, x) || x == pn {
      InsertAtFrontHolds(rs, pn, x);
    }
  }

  lemma InsertAtFrontNormal(rs: seq<Range>, pn: nat)
    requires Normal(rs) && rs != [] && pn + 1 >= rs[0].start
    ensures Normal(Insert(rs, pn))
  {
    hide Normal;
    TailNormal(rs);
    if pn + 1 == rs[0].start && |rs| > 1 && rs[1].end + 1 == pn {
      TailNormal(rs[1..]);
      assert rs[1..][1..] == rs[2..];
      PutInFront(Range(rs[1].start, rs[0].end), rs[2..]);
    } else if pn > rs[0].end + 1 {
      PutInFront(Range(pn, pn), rs);
    } else if !Contains(rs[0], pn) {
      PutInFront(Range(Min(pn, rs[0].start), Max(pn, rs[0].end)), rs[1..]);
    }
  }

  lemma TailNormal(rs: seq<Range>)
    requires Normal(rs) && rs != []
    ensures Normal(rs[1..]) && rs[0].start <= rs[0].end && (|rs| > 1 ==> rs[1].end + 2 <= rs[0].start)
  {
  }

  lemma PutInFront(r: Range, rs: seq<Range>)
    requires Normal(rs) && r.start <= r.end && (rs != [] ==> rs[0].end + 2 <= r.start)
    ensures Normal([r] + rs)
  {
    var all := [r] + rs;
    forall j | 0 <= j < |rs| ensures rs[j].end + 2 <= r.start && all[j + 1] == rs[j] {
      assert j > 0 ==> rs[j].end + 2 <= rs[0].start;
    }
  }

  lemma InsertAtFrontHolds(rs: seq<Range>, pn: nat, x: nat)
    requires Normal(rs) && rs != [] && pn + 1 >= rs[0].start
    ensures Holds(Insert(rs, pn), x) <==> Holds(rs, x) || x == pn
  {
    hide Holds;
    var r := Insert(rs, pn);
    HoldsTail(rs, x);
    HoldsTail(r, x);
    if pn + 1 == rs[0].start && |rs| > 1 && rs[1].end + 1 == pn {
      HoldsTail(rs[1..], x);
      assert r[1..] == rs[1..][1..];
    } else if pn > rs[0].end + 1 {
      assert r[1..] == rs;
    } else if !Contains(rs[0], pn) {
      assert r[1..] == rs[1..];
    }
  }

  /** Each arrival adds exactly its number, or nothing if it is isolated and every slot is taken. */
  lemma RecordExact(rs: seq<Range>, pn: nat)
    requires Normal(rs) && |rs| <= MAX_RECV_RANGES
    ensures Normal(Record(rs, pn)) && |Record(rs, pn)| <= MAX_RECV_RANGES
    ensures forall x :: Holds(Record(rs, pn), x) <==> Holds(rs, x) || (x == pn && !Dropped(rs, pn))
  {
    InsertExact(rs, pn);
    InsertSize(rs, pn);
  }

  lemma {:induction false} InsertSize(rs: seq<Range>, pn: nat)
    requires Normal(rs)
    ensures |Insert(rs, pn)| <= |rs| + if Holds(rs, pn) || Touches(rs, pn) then 0 else 1
  {
    hide Normal, Holds, Touches;
    if rs == [] {
      NothingHeld(pn);
    } else {
      TailNormal(rs);
      HoldsTail(rs, pn);
      TouchesTail(rs, pn);
      BelowFirst(rs, pn);
      if pn + 1 < rs[0].start {
        InsertSize(rs[1..], pn);
      }
    }
  }

  lemma NothingHeld(pn: nat)
    ensures !Holds([], pn) && !Touches([], pn)
  {
  }

  lemma TouchesTail(rs: seq<Range>, pn: nat)
    requires rs != []
    ensures Touches(rs, pn) <==> pn == rs[0].end + 1 || pn + 1 == rs[0].start || Touches(rs[1..], pn)
  {
    if Touches(rs, pn) {
      var i :| 0 <= i < |rs| && (pn == rs[i].end + 1 || pn + 1 == rs[i].start);
      assert i > 0 ==> rs[1..][i - 1] == rs[i];
    }
    if Touches(rs[1..], pn) {
      var i :| 0 <= i < |rs[1..]| && (pn == rs[1..][i].end + 1 || pn + 1 == rs[1..][i].start);
      assert rs[i + 1] == rs[1..][i];
    }
  }

  /** Insertion leaves alone the ranges that lie well above the number. */
  lemma {:induction false} InsertSkips(rs: seq<Range>, pn: nat, i: nat)
    requires i <= |rs| && forall j :: 0 <= j < i ==> pn + 1 < rs[j].start <= rs[j].end
    ensures Insert(rs, pn) == rs[..i] + Insert(rs[i..], pn)
  {
    hide Insert;
    if i > 0 {
      InsertBelow(rs, pn);
      InsertSkips(rs[1..], pn, i - 1);
      assert rs[..i] == [rs[0]] + rs[1..][..i - 1];
      assert rs[1..][i - 1..] == rs[i..];
    } else {
      assert rs[..0] + Insert(rs[0..], pn) == Insert(rs, pn);
    }
  }

  // ---------- Whole runs of arrivals ----------

  function RecordAll(pns: seq<nat>): (rs: seq<Range>)
  {
    if pns == [] then [] else Record(RecordAll(pns[..|pns| - 1]), pns[|pns| - 1])
  }

  /** The arrivals that were not dropped. */
  ghost function Kept(pns: seq<nat>): (s: set<nat>)
  {
    if pns == [] then {} else
    var before := RecordAll(pns[..|pns| - 1]);
    Kept(pns[..|pns| - 1]) + if Dropped(before, pns[|pns| - 1]) then {} else {pns[|pns| - 1]}
  }

  /** After any arrivals the ranges are normal, few enough, and hold exactly the numbers kept, all of which arrived. */
  lemma {:induction false} RecordAllExact(pns: seq<nat>)
    ensures Normal(RecordAll(pns)) && |RecordAll(pns)| <= MAX_RECV_RANGES
    ensures forall x :: Holds(RecordAll(pns), x) <==> x in Kept(pns)
    ensures forall x :: x in Kept(pns) ==> x in pns
  {
    if pns != [] {
      RecordAllExact(pns[..|pns| - 1]);
      RecordExact(RecordAll(pns[..|pns| - 1]), pns[|pns| - 1]);
    }
  }

  // ---------- ACK frames ----------

  /** The further ranges of an ACK frame, each coded by the gap below the one before. */
  function Gaps(rs: seq<Range>): (r: seq<Frames.AckRange>)
    requires Normal(rs)
    ensures |r| == if rs == [] then 0 else |rs| - 1
  {
    if |rs| <= 1 then []
    else [Frames.AckRange(rs[0].start - rs[1].end - 2, rs[1].end - rs[1].start)] + Gaps(rs[1..])
  }

  /** `nxp_ack_build_frame`. */
  function BuildFrame(rs: seq<Range>, delay: nat): (f: Frames.AckFrame)
    requires Normal(rs) && rs != []
    ensures f.ackDelay == delay && f.largestAcked == rs[0].end && f.largestAcked - f.firstAckRange == rs[0].start
  {
    Frames.AckFrame(rs[0].end, delay, rs[0].end - rs[0].start, Gaps(rs), Frames.NoEcn)
  }

  /** The test that `nxp_ack_on_ack_recv` applies to every outstanding packet. */
  predicate AckedBy(f: Frames.AckFrame, pn: nat)
  {
    var start := Sub64(f.largestAcked, f.firstAckRange);
    start <= pn <= f.largestAcked || AckedByRanges(f.ranges, start, pn)
  }

  predicate AckedByRanges(ranges: seq<Frames.AckRange>, above: nat, pn: nat)
  {
    if ranges == [] || above < ranges[0].gap + 2 then false
    else
      var end := above - ranges[0].gap - 2;
      var start := if end >= ranges[0].ackRange then end - ranges[0].ackRange else 0;
      start <= pn <= end || AckedByRanges(ranges[1..], start, pn)
  }

  /** On the wire a gap is the number of missing packets less one, and a range the number of its packets less one. */
  lemma {:induction false} GapsCountTheMissing(rs: seq<Range>, i: nat)
    requires Normal(rs) && 0 < i < |rs|
    ensures var missing, held := rs[i - 1].start - rs[i].end - 1, rs[i].end - rs[i].start + 1;
            Gaps(rs)[i - 1] == Frames.AckRange(missing - 1, held - 1)
  {
    hide Normal;
    TailNormal(rs);
    TailNormal(rs[1..]);
    if i > 1 {
      GapsCountTheMissing(rs[1..], i - 1);
    }
  }

  lemma {:induction false} GapsMeaning(rs: seq<Range>, pn: nat)
    requires Normal(rs) && rs != []
    ensures AckedByRanges(Gaps(rs), rs[0].start, pn) <==> Holds(rs[1..], pn)
  {
    hide Normal, Holds;
    TailNormal(rs);
    NothingHeld(pn);
    assert |rs| == 1 ==> rs[1..] == [];
    if |rs| > 1 {
      TailNormal(rs[1..]);
      GapsMeaning(rs[1..], pn);
      HoldsTail(rs[1..], pn);
      assert Gaps(rs)[1..] == Gaps(rs[1..]);
    }
  }

  /** The frame built from the ranges acknowledges exactly the numbers they hold. */
  lemma FrameMeaning(rs: seq<Range>, delay: nat, pn: nat)
    requires Normal(rs) && rs != [] && rs[0].end < TWO_64
    ensures AckedBy(BuildFrame(rs, delay), pn) <==> Holds(rs, pn)
  {
    HoldsTail(rs, pn);
    GapsMeaning(rs, pn);
  }

  lemma {:induction false} GapsAreVarints(rs: seq<Range>)
    requires Normal(rs) && rs != [] && rs[0].end <= Varint.MAX
    ensures Frames.AllVarints(Frames.Flatten(Gaps(rs)))
  {
    hide Normal;
    TailNormal(rs);
    if |rs| > 1 {
      TailNormal(rs[1..]);
      GapsAreVarints(rs[1..]);
      assert Gaps(rs)[1..] == Gaps(rs[1..]);
    }
  }

  /**
   * Across the wire: the frame built from the ranges survives encoding and decoding, and the receiver's
   * test accepts exactly the numbers the ranges hold.
   */
  lemma WireMeaning(rs: seq<Range>, delay: nat, rest: Bytes, pn: nat)
    requires Normal(rs) && 0 < |rs| <= MAX_RECV_RANGES && rs[0].end <= Varint.MAX && delay <= Varint.MAX
    ensures Frames.Encodable(Frames.Ack(BuildFrame(rs, delay)))
    ensures var r := Frames.Decode(Frames.Encode(Frames.Ack(BuildFrame(rs, delay))) + rest);
            && r.Some? && r.value.frame.Ack? && r.value.rest == rest
            && (AckedBy(r.value.frame.ack, pn) <==> Holds(rs, pn))
  {
    hide Frames.Decode, Frames.Encode, AckedBy;
    var f := BuildFrame(rs, delay);
    GapsAreVarints(rs);
    assert Frames.Fields(Frames.Ack(f)) == [0x02, f.largestAcked, f.ackDelay, |f.ranges|, f.firstAckRange]
                                           + (Frames.Flatten(f.ranges) + []);
    Frames.AckRoundTrip(f, rest);
    FrameMeaning(rs, delay, pn);
  }
}
