/** Reading a buffer at an advancing position, as the decoders of the wire format do. */
module Readers {
  import opened Bytes
  import Frames
  import V = Varint

  /** The first `len` bytes of a buffer, read up to `pos`. */
  class Reader {
    const buf: array<Byte>
    const len: nat
    var pos: nat

    ghost predicate Valid()
      reads this
    {
      pos <= len <= buf.Length
    }

    /** What has not been read. */
    ghost function Rest(): (b: Bytes)
      reads this, buf
      requires Valid()
    {
      buf[pos..len]
    }

    constructor (buf: array<Byte>, start: nat, len: nat)
      requires start <= len <= buf.Length
      ensures Valid() && this.buf == buf && this.len == len && pos == start
    {
      this.buf, this.len, pos := buf, len, start;
    }

    /** `nxp_varint_decode`: the prefix bits give the length, the bytes follow most significant first. */
    method Varint() returns (v: Option<nat>)
      requires Valid()
      modifies this`pos
      ensures Valid()
      ensures var r := V.Decode(old(Rest()));
              if r.None? then v == None else v == Some(r.value.0) && Rest() == r.value.1
    {
      if pos >= len {
        return None;
      }
      ghost var b := Rest();
      var prefix := buf[pos] / 64;
      var n := if prefix == 0 then 1 else if prefix == 1 then 2 else if prefix == 2 then 4 else 8;
      if len - pos < n {
        return None;
      }
      var x := BigEndianFrom(n);
      pos := pos + n;
      assert Rest() == b[n..];
      v := Some(x);
    }

    /** The value of the next `n` bytes without the two prefix bits. */
    method BigEndianFrom(n: nat) returns (x: nat)
      requires Valid() && 0 < n <= len - pos
      ensures x == FromBigEndian([Rest()[0] % 64] + Rest()[1..n])
    {
      ghost var digits := [Rest()[0] % 64] + Rest()[1..n];
      x := buf[pos] % 64;
      assert digits[..1] == [digits[0]] && digits[..1][..0] == [];
      assert FromBigEndian(digits[..1]) == FromBigEndian([]) * 256 + digits[0];
      for i := 1 to n
        invariant x == FromBigEndian(digits[..i])
      {
        assert digits[..i + 1][..i] == digits[..i];
        assert digits[i] == Rest()[1..n][i - 1] == Rest()[i] == buf[pos + i];
        x := x * 256 + buf[pos + i];
      }
      assert digits[..n] == digits;
    }

    /** The next `n` bytes. */
    method Raw(n: nat) returns (d: Option<Bytes>)
      requires Valid()
      modifies this`pos
      ensures Valid()
      ensures var r := Frames.TakeBytes(old(Rest()), n);
              if r.None? then d == None else d == Some(r.value.0) && Rest() == r.value.1
    {
      if n > len - pos {
        return None;
      }
      ghost var b := Rest();
      assert b[..n] == buf[pos..pos + n];
      d := Some(buf[pos..pos + n]);
      pos := pos + n;
      assert b[n..] == Rest();
    }

    /** A length of at most `limit`, then that many bytes. */
    method Block(limit: nat) returns (d: Option<Bytes>)
      requires Valid()
      modifies this`pos
      ensures Valid()
      ensures var r := Frames.TakeBlock(old(Rest()), limit);
              if r.None? then d == None else d == Some(r.value.0) && Rest() == r.value.1
    {
      hide V.Decode, Frames.TakeBytes;
      var n := Varint();
      if n.None? || n.value > limit {
        return None;
      }
      d := Raw(n.value);
    }

    /** A run of `n` varints. */
    method Varints(n: nat) returns (vs: Option<seq<nat>>)
      requires Valid()
      modifies this`pos
      ensures Valid()
      ensures var r := Frames.TakeVarints(old(Rest()), n);
              if r.None? then vs == None else vs == Some(r.value.0) && Rest() == r.value.1
    {
      hide V.Decode, Frames.TakeVarints;
      var all: seq<nat> := [];
      ghost var b := Rest();
      for i := 0 to n
        invariant Valid() && |all| == i
        invariant var whole, more := Frames.TakeVarints(b, n), Frames.TakeVarints(Rest(), n - i);
                  && (whole.None? <==> more.None?)
                  && (whole.Some? ==> whole.value.1 == more.value.1 && whole.value.0 == all + more.value.0)
      {
        NextVarint(Rest(), n - i);
        var v := Varint();
        if v.None? {
          return None;
        }
        all := all + [v.value];
      }
      NothingTaken(Rest());
      assert all + [] == all;
      vs := Some(all);
    }
  }

  lemma NextVarint(b: Bytes, n: nat)
    requires n > 0
    ensures var whole := Frames.TakeVarints(b, n);
            match V.Decode(b)
            case None => whole.None?
            case Some((v, b1)) =>
              var more := Frames.TakeVarints(b1, n - 1);
              (whole.None? <==> more.None?) && (whole.Some? ==> whole.value == ([v] + more.value.0, more.value.1))
  {
    hide V.Decode;
  }

  lemma NothingTaken(b: Bytes)
    ensures Frames.TakeVarints(b, 0) == Some(([], b))
  {
  }
}
