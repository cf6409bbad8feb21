/** Bytes, big-endian numbers and block copies, as the wire code uses them. */
module Bytes {

  type Byte = x: int | 0 <= x < 256
  type Bytes = seq<Byte>

  datatype Option<+T> = None | Some(value: T) {
    predicate IsFailure() { None? }
    function PropagateFailure<U>(): Option<U> requires None? { None }
    function Extract(): T requires Some? { value }
  }

  const TWO_64: nat := 0x1_0000_0000_0000_0000

  /** The longest connection id (`NXP_MAX_CID_LEN`). */
  const MAX_CID_LEN := 20

  function Min(a: nat, b: nat): (m: nat)
    ensures m <= a && m <= b && (m == a || m == b)
  {
    if a < b then a else b
  }

  function Max(a: nat, b: nat): (m: nat)
    ensures m >= a && m >= b && (m == a || m == b)
  {
    if a > b then a else b
  }

  function Pow2(n: nat): (r: nat)
    ensures r > 0
  {
    if n == 0 then 1 else 2 * Pow2(n - 1)
  }

  /** Subtraction of uint64_t. */
  function Sub64(a: nat, b: nat): (r: nat)
  {
    (a - b) % TWO_64
  }

  lemma Associate<T>(a: seq<T>, b: seq<T>, c: seq<T>)
    ensures (a + b) + c == a + (b + c)
  {
  }

  lemma Regroup<T>(a: seq<T>, b: seq<T>, c: seq<T>, d: seq<T>)
    ensures ((a + b) + c) + d == a + (b + (c + d))
  {
  }

  /** A slice of what follows the first `a` elements. */
  lemma SliceOfRest<T>(s: seq<T>, a: nat, lo: nat, hi: nat)
    requires lo <= hi && a + hi <= |s|
    ensures s[a..][lo..hi] == s[a + lo..a + hi]
  {
  }

  lemma RestOfRest<T>(s: seq<T>, a: nat, b: nat)
    requires a + b <= |s|
    ensures s[a..][b..] == s[a + b..]
  {
  }

  lemma SliceOfSlice<T>(s: seq<T>, lo: nat, hi: nat, a: nat, b: nat)
    requires a <= b && lo + b <= hi <= |s|
    ensures s[lo..hi][a..b] == s[lo + a..lo + b]
  {
    var t := s[lo..hi];
    assert |t| == hi - lo;
    forall i | 0 <= i < b - a ensures t[a..b][i] == s[lo + a + i] {
      assert t[a + i] == s[lo + (a + i)];
    }
  }

  lemma SliceGrows<T>(s: seq<T>, lo: nat, hi: nat)
    requires lo <= hi < |s|
    ensures s[lo..hi] + [s[hi]] == s[lo..hi + 1]
  {
  }

  ghost function Pow256(n: nat): (r: nat)
    ensures r > 0
  {
    if n == 0 then 1 else 256 * Pow256(n - 1)
  }

  /** The low `n` bytes of `v`, most significant first. */
  function BigEndian(v: nat, n: nat): (r: Bytes)
    ensures |r| == n
  {
    if n == 0 then [] else BigEndian(v / 256, n - 1) + [v % 256]
  }

  function FromBigEndian(b: Bytes): (v: nat)
  {
    if b == [] then 0 else FromBigEndian(b[..|b| - 1]) * 256 + b[|b| - 1]
  }

  lemma {:induction false} BigEndianRoundTrip(v: nat, n: nat)
    ensures FromBigEndian(BigEndian(v, n)) == v % Pow256(n)
    ensures v < Pow256(n) ==> v % Pow256(n) == v
  {
    if n > 0 {
      BigEndianRoundTrip(v / 256, n - 1);
      var p := Pow256(n - 1);
      assert BigEndian(v, n)[..n - 1] == BigEndian(v / 256, n - 1);
      DigitSplit(v, p);
    }
  }

  /** A big-endian number from its first byte and the rest. */
  lemma {:induction false} FirstDigit(x: Byte, rest: Bytes)
    ensures FromBigEndian([x] + rest) == x * Pow256(|rest|) + FromBigEndian(rest)
  {
    var b := [x] + rest;
    if rest == [] {
      assert b[..0] == [];
      assert FromBigEndian(b) == FromBigEndian(b[..0]) * 256 + x;
    } else {
      var short := rest[..|rest| - 1];
      assert b[..|b| - 1] == [x] + short;
      FirstDigit(x, short);
      var p, v := Pow256(|short|), FromBigEndian(short);
      assert (x * p + v) * 256 == x * (256 * p) + v * 256;
    }
  }

  lemma {:induction false} BelowPower(b: Bytes)
    ensures FromBigEndian(b) < Pow256(|b|)
  {
    if b != [] {
      BelowPower(b[..|b| - 1]);
    }
  }

  lemma DigitSplit(v: nat, p: nat)
    requires p > 0
    ensures v / 256 % p * 256 + v % 256 == v % (256 * p)
  {
    var q, r := v / 256 / p, v / 256 % p;
    assert v == 256 * (q * p + r) + v % 256;
    assert v == q * (256 * p) + (256 * r + v % 256);
    ModUnique(v, 256 * p, q, 256 * r + v % 256);
  }

  lemma MulAtLeast(k: nat, m: nat)
    requires k >= 1
    ensures k * m >= m
  {
  }

  lemma ModUnique(v: nat, m: nat, q: nat, r: nat)
    requires r < m && v == q * m + r
    ensures v % m == r && v / m == q
  {
    var q', r' := v / m, v % m;
    assert v == m * q' + r';
    if q < q' {
      assert (q' - q) * m == r - r';
      MulAtLeast(q' - q, m);
    } else if q' < q {
      assert (q - q') * m == r' - r;
      MulAtLeast(q - q', m);
    }
  }

  /** `b` with `src` in place of the bytes from `pos` on. */
  function Overwrite(b: Bytes, pos: nat, src: Bytes): (r: Bytes)
    requires pos + |src| <= |b|
    ensures |r| == |b|
  {
    b[..pos] + src + b[pos + |src|..]
  }

  /** memcpy of `src` into `buf` at `pos`. */
  method CopyInto(buf: array<Byte>, pos: nat, src: Bytes)
    requires pos + |src| <= buf.Length
    modifies buf
    ensures buf[..] == Overwrite(old(buf[..]), pos, src)
    ensures buf[..pos + |src|] == old(buf[..pos]) + src
  {
    forall i | 0 <= i < |src| {
      buf[pos + i] := src[i];
    }
  }
}
