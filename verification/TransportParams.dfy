/** Transport parameters as the hello messages carry them (src/core/handshake.c). */
module TransportParams {
  import opened Bytes
  import Varint

  datatype Params = Params(maxData: nat, maxStreamData: nat, streamsBidi: nat, streamsUni: nat, idleUs: nat,
                           earlyData: nat, cidLimit: nat)

  const ZERO := Params(0, 0, 0, 0, 0, 0, 0)
  const TWO_32: nat := 0x1_0000_0000

  /** The field widths of the C record. */
  predicate Typed(p: Params)
  {
    && p.maxData < TWO_64 && p.maxStreamData < TWO_64 && p.idleUs < TWO_64 && p.earlyData < TWO_64
    && p.streamsBidi < TWO_32 && p.streamsUni < TWO_32 && p.cidLimit < TWO_32
  }

  datatype Entry = Entry(id: Byte, value: nat)

  /** The parameters in wire order; two of them are left out when zero, and the idle timeout goes as milliseconds. */
  function Entries(p: Params): (es: seq<Entry>)
  {
    [Entry(1, p.maxData), Entry(2, p.maxStreamData), Entry(3, p.streamsBidi), Entry(4, p.streamsUni),
     Entry(5, p.idleUs / 1000)]
    + (if p.earlyData > 0 then [Entry(6, p.earlyData)] else [])
    + (if p.cidLimit > 0 then [Entry(10, p.cidLimit)] else [])
  }

  predicate AllVarints(es: seq<Entry>)
  {
    forall i :: 0 <= i < |es| ==> es[i].value <= Varint.MAX
  }

  predicate Encodable(p: Params)
  {
    p.maxData <= Varint.MAX && p.maxStreamData <= Varint.MAX && p.earlyData <= Varint.MAX
  }

  /** `encode_tp_varint`. */
  function Tlv(e: Entry): (b: Bytes)
    requires e.value <= Varint.MAX
    ensures 2 < |b| <= 10
  {
    [e.id, Varint.Length(e.value)] + Varint.Encode(e.value)
  }

  function Tlvs(es: seq<Entry>): (b: Bytes)
    requires AllVarints(es)
    ensures |b| <= 10 * |es| && (b == [] <==> es == [])
  {
    if es == [] then [] else Tlv(es[0]) + Tlvs(es[1..])
  }

  lemma EncodableEntries(p: Params)
    requires Typed(p)
    ensures AllVarints(Entries(p)) <==> Encodable(p)
  {
    var es := Entries(p);
    assert es[0].value == p.maxData && es[1].value == p.maxStreamData;
    if p.earlyData > 0 {
      assert es[5].value == p.earlyData;
    }
  }

  /** What `encode_transport_params` adds to a hello: all the parameters, or nothing when one has no encoding. */
  function Encode(p: Params): (b: Bytes)
    ensures |b| <= 70
  {
    if AllVarints(Entries(p)) then Tlvs(Entries(p)) else []
  }

  /** One parameter stored in the record, at the width of its field. */
  function Set(p: Params, id: Byte, v: nat): (r: Params)
  {
    match id
    case 1 => p.(maxData := v)
    case 2 => p.(maxStreamData := v)
    case 3 => p.(streamsBidi := v % TWO_32)
    case 4 => p.(streamsUni := v % TWO_32)
    case 5 => p.(idleUs := v * 1000 % TWO_64)
    case 6 => p.(earlyData := v)
    case 10 => p.(cidLimit := v % TWO_32)
    case _ => p
  }

  /**
   * The loop of `decode_transport_params`: the record as far as it was filled, and whether the input was well
   * formed.
   */
  function DecodeFrom(b: Bytes, p: Params): (r: (Params, bool))
    decreases |b|
  {
    if b == [] then (p, true)
    else if |b| < 2 || 2 + b[1] > |b| then (p, false)
    else match Varint.Decode(b[2..2 + b[1]])
      case None => (p, false)
      case Some((v, _)) => DecodeFrom(b[2 + b[1]..], Set(p, b[0], v))
  }

  function Decode(b: Bytes): (r: (Params, bool))
  {
    DecodeFrom(b, ZERO)
  }

  function SetAll(p: Params, es: seq<Entry>): (r: Params)
    decreases es
  {
    if es == [] then p else SetAll(Set(p, es[0].id, es[0].value), es[1..])
  }

  lemma {:induction false} TlvsDecoded(es: seq<Entry>, p: Params)
    requires AllVarints(es)
    ensures DecodeFrom(Tlvs(es), p) == (SetAll(p, es), true)
  {
    hide Varint.Decode, Varint.Encode, Set;
    if es != [] {
      var e, b := es[0], Tlvs(es);
      var n := Varint.Length(e.value);
      assert b[0] == e.id && b[1] == n;
      assert b[2..2 + n] == Varint.Encode(e.value) + [];
      assert b[2 + n..] == Tlvs(es[1..]);
      Varint.RoundTrip(e.value, []);
      TlvsDecoded(es[1..], Set(p, e.id, e.value));
    }
  }

  lemma {:induction false} SetAllConcat(p: Params, es: seq<Entry>, fs: seq<Entry>)
    ensures SetAll(p, es + fs) == SetAll(SetAll(p, es), fs)
    decreases es
  {
    if es == [] {
      assert es + fs == fs;
    } else {
      assert (es + fs)[1..] == es[1..] + fs;
      SetAllConcat(Set(p, es[0].id, es[0].value), es[1..], fs);
    }
  }

  lemma SetOne(p: Params, e: Entry)
    ensures SetAll(p, [e]) == Set(p, e.id, e.value)
  {
    assert SetAll(Set(p, e.id, e.value), [e][1..]) == Set(p, e.id, e.value);
  }

  /** The idle timeout loses what is below a millisecond. */
  function Rounded(p: Params): (r: Params)
  {
    p.(idleUs := p.idleUs / 1000 * 1000)
  }

  lemma FixedEntries(p: Params)
    requires Typed(p)
    ensures SetAll(ZERO, Entries(p.(earlyData := 0, cidLimit := 0))) == Rounded(p.(earlyData := 0, cidLimit := 0))
  {
    var es := Entries(p.(earlyData := 0, cidLimit := 0));
    var p1 := ZERO.(maxData := p.maxData);
    var p2 := p1.(maxStreamData := p.maxStreamData);
    var p3 := p2.(streamsBidi := p.streamsBidi);
    var p4 := p3.(streamsUni := p.streamsUni);
    SetAllConcat(ZERO, es[..1], es[1..]);
    SetOne(ZERO, es[0]);
    SetAllConcat(p1, es[1..2], es[2..]);
    SetOne(p1, es[1]);
    SetAllConcat(p2, es[2..3], es[3..]);
    SetOne(p2, es[2]);
    SetAllConcat(p3, es[3..4], es[4..]);
    SetOne(p3, es[3]);
    SetOne(p4, es[4]);
    assert es == es[..1] + es[1..] && es[..1] == [es[0]];
    assert es[1..] == es[1..2] + es[2..] && es[1..2] == [es[1]];
    assert es[2..] == es[2..3] + es[3..] && es[2..3] == [es[2]];
    assert es[3..] == es[3..4] + es[4..] && es[3..4] == [es[3]];
    assert es[4..] == [es[4]];
  }

  /** Every parameter comes back; the idle timeout comes back rounded down to a millisecond. */
  lemma RoundTrip(p: Params)
    requires Typed(p) && Encodable(p)
    ensures Encode(p) != [] && Decode(Encode(p)) == (Rounded(p), true)
  {
    hide Set, DecodeFrom, Tlvs;
    var fixed := p.(earlyData := 0, cidLimit := 0);
    var early := if p.earlyData > 0 then [Entry(6, p.earlyData)] else [];
    var cids := if p.cidLimit > 0 then [Entry(10, p.cidLimit)] else [];
    EncodableEntries(p);
    TlvsDecoded(Entries(p), ZERO);
    assert Entries(p) == Entries(fixed) + early + cids;
    SetAllConcat(ZERO, Entries(fixed) + early, cids);
    SetAllConcat(ZERO, Entries(fixed), early);
    FixedEntries(p);
    SetOptional(Rounded(fixed), p);
    SomeEntries(p);
  }

  lemma SomeEntries(p: Params)
    requires AllVarints(Entries(p))
    ensures Tlvs(Entries(p)) != []
  {
  }

  lemma SetOptional(q: Params, p: Params)
    requires Typed(p) && q == Rounded(p.(earlyData := 0, cidLimit := 0))
    ensures var early := if p.earlyData > 0 then [Entry(6, p.earlyData)] else [];
      var cids := if p.cidLimit > 0 then [Entry(10, p.cidLimit)] else [];
      SetAll(SetAll(q, early), cids) == Rounded(p)
  {
    SetOne(q, Entry(6, p.earlyData));
    SetOne(q.(earlyData := p.earlyData), Entry(10, p.cidLimit));
  }

  // ---------- The same in place ----------

  /** `encode_tp_varint` at `pos`. */
  method WriteParam(buf: array<Byte>, pos: nat, e: Entry) returns (n: nat)
    requires pos <= buf.Length
    modifies buf
    ensures n == if e.value <= Varint.MAX && pos + 2 + Varint.Length(e.value) <= buf.Length then |Tlv(e)| else 0
    ensures n > 0 ==> buf[..pos + n] == old(buf[..pos]) + Tlv(e)
    ensures n == 0 ==> buf[..] == old(buf[..])
  {
    hide Varint.Encode;
    if e.value > Varint.MAX || pos + 2 + Varint.Length(e.value) > buf.Length {
      return 0;
    }
    buf[pos] := e.id;
    buf[pos + 1] := Varint.Length(e.value);
    CopyInto(buf, pos + 2, Varint.Encode(e.value));
    n := 2 + Varint.Length(e.value);
  }

  lemma {:induction false} TlvsAppend(es: seq<Entry>, e: Entry)
    requires AllVarints(es) && e.value <= Varint.MAX
    ensures AllVarints(es + [e]) && Tlvs(es + [e]) == Tlvs(es) + Tlv(e)
  {
    hide Tlv;
    if es == [] {
      assert Tlvs([e]) == Tlv(e) + Tlvs([]);
      assert es + [e] == [e];
    } else {
      TlvsAppend(es[1..], e);
      assert (es + [e])[1..] == es[1..] + [e];
    }
  }

  lemma {:induction false} TlvsPrefix(es: seq<Entry>, k: nat)
    requires AllVarints(es) && k <= |es|
    ensures AllVarints(es[..k]) && |Tlvs(es[..k])| <= |Tlvs(es)|
  {
    hide Tlv;
    if k < |es| {
      var short := es[..|es| - 1];
      assert es == short + [es[|es| - 1]] && short[..k] == es[..k];
      TlvsAppend(short, es[|es| - 1]);
      TlvsPrefix(short, k);
    } else {
      assert es[..k] == es;
    }
  }

  lemma NoneWritten(es: seq<Entry>)
    ensures AllVarints(es[..0]) && Tlvs(es[..0]) == []
  {
  }

  /** Entry `i` goes behind those before it; an entry that cannot be written leaves no room for all. */
  lemma OneMore(es: seq<Entry>, i: nat)
    requires i < |es| && AllVarints(es[..i])
    ensures es[i].value <= Varint.MAX ==>
              && AllVarints(es[..i + 1]) && Tlvs(es[..i + 1]) == Tlvs(es[..i]) + Tlv(es[i])
              && |Tlv(es[i])| == 2 + Varint.Length(es[i].value)
    ensures AllVarints(es) ==> es[i].value <= Varint.MAX && |Tlvs(es[..i])| + |Tlv(es[i])| <= |Tlvs(es)|
  {
    hide Tlv, Tlvs;
    assert es[..i + 1] == es[..i] + [es[i]];
    if es[i].value <= Varint.MAX {
      TlvsAppend(es[..i], es[i]);
      TlvLength(es[i]);
    }
    if AllVarints(es) {
      TlvsPrefix(es, i + 1);
    }
  }

  /** `encode_transport_params` at `pos`: the run of calls, given up with 0 at the first that fails. */
  method WriteParams(buf: array<Byte>, pos: nat, p: Params) returns (n: nat)
    requires pos <= buf.Length
    modifies buf
    ensures n == if AllVarints(Entries(p)) && pos + |Encode(p)| <= buf.Length then |Encode(p)| else 0
    ensures buf[..pos] == old(buf[..pos])
    ensures n > 0 ==> buf[..pos + n] == old(buf[..pos]) + Encode(p)
  {
    hide Tlv, Tlvs, Entries, AllVarints;
    var es := Entries(p);
    NoneWritten(es);
    n := 0;
    for i := 0 to |es|
      invariant pos + n <= buf.Length && AllVarints(es[..i]) && n == |Tlvs(es[..i])|
      invariant buf[..pos + n] == old(buf[..pos]) + Tlvs(es[..i])
    {
      var k := WriteParam(buf, pos + n, es[i]);
      OneMore(es, i);
      if k == 0 {
        SliceOfSlice(buf[..], 0, pos + n, 0, pos);
        return 0;
      }
      Associate(old(buf[..pos]), Tlvs(es[..i]), Tlv(es[i]));
      n := n + k;
    }
    assert es[..|es|] == es;
    SliceOfSlice(buf[..], 0, pos + n, 0, pos);
  }

  lemma TlvLength(e: Entry)
    requires e.value <= Varint.MAX
    ensures |Tlv(e)| == 2 + Varint.Length(e.value)
  {
  }

  /** `decode_transport_params`. */
  method ReadParams(b: Bytes) returns (p: Params, ok: bool)
    ensures (p, ok) == Decode(b)
  {
    hide Varint.Decode, Set;
    p := ZERO;
    var pos := 0;
    assert b[0..] == b;
    while pos < |b|
      invariant 0 <= pos <= |b| && Decode(b) == DecodeFrom(b[pos..], p)
    {
      if pos + 2 > |b| {
        return p, false;
      }
      var id, len: nat := b[pos], b[pos + 1];
      if pos + 2 + len > |b| {
        return p, false;
      }
      SliceOfRest(b, pos, 2, 2 + len);
      RestOfRest(b, pos, 2 + len);
      var v := Varint.Decode(b[pos + 2..pos + 2 + len]);
      if v.None? {
        return p, false;
      }
      p := Set(p, id, v.value.0);
      pos := pos + 2 + len;
    }
    ok := true;
  }
}
