/** Fixed-width integers and big-endian byte strings, as the decoders see them. */
module Bytes {

  type Byte = x: int | 0 <= x < 0x100
  type Uint16 = x: int | 0 <= x < 0x1_0000
  type Uint32 = x: int | 0 <= x < 0x1_0000_0000
  type Bytes = seq<Byte>

  /** 256 to the power `n`: one past the largest value `n` big-endian bytes hold. */
  function Pow256(n: nat): (r: nat)
    ensures r >= 1
  {
    if n == 0 then 1 else 0x100 * Pow256(n - 1)
  }

  /** The unsigned integer a big-endian byte string denotes (`int.from_bytes(s, 'big')`). */
  function BeUint(s: Bytes): (r: nat)
    ensures r < Pow256(|s|)
  {
    if |s| == 0 then 0 else BeUint(s[..|s| - 1]) * 0x100 + s[|s| - 1]
  }

  /** Two bytes, high byte first. */
  lemma BeUint16(s: Bytes)
    requires |s| == 2
    ensures BeUint(s) == s[0] as int * 0x100 + s[1]
  {
    assert s[..1][..0] == [];
  }

  /** Four bytes, most significant first. */
  lemma BeUint32(s: Bytes)
    requires |s| == 4
    ensures BeUint(s) == ((s[0] as int * 0x100 + s[1]) * 0x100 + s[2]) * 0x100 + s[3]
  {
    assert s[..3][..2] == s[..2];
    BeUint16(s[..2]);
  }

  /** The `width`-byte big-endian representation of `n` (`n.to_bytes(width, 'big')`). */
  function BeBytes(n: nat, width: nat): (s: Bytes)
    requires n < Pow256(width)
    ensures |s| == width
  {
    if width == 0 then [] else BeBytes(n / 0x100, width - 1) + [n % 0x100]
  }

  /** Reading back what `BeBytes` wrote gives the number again. */
  lemma {:induction false} BeUintOfBeBytes(n: nat, width: nat)
    requires n < Pow256(width)
    ensures BeUint(BeBytes(n, width)) == n
  {
    if width > 0 {
      var s := BeBytes(n, width);
      assert s[..|s| - 1] == BeBytes(n / 0x100, width - 1);
      BeUintOfBeBytes(n / 0x100, width - 1);
    }
  }

  /** Writing back what `BeUint` read gives the byte string again. */
  lemma {:induction false} BeBytesOfBeUint(s: Bytes)
    ensures BeBytes(BeUint(s), |s|) == s
  {
    if |s| > 0 {
      var init := s[..|s| - 1];
      BeBytesOfBeUint(init);
      var n := BeUint(s);
      assert n / 0x100 == BeUint(init);
      assert n % 0x100 == s[|s| - 1];
      assert s == init + [s[|s| - 1]];
    }
  }

  /** Two's-complement reading of a 16-bit pattern (`int.from_bytes(..., signed=True)`). */
  function ToInt16(u: Uint16): (v: int)
    ensures -0x8000 <= v < 0x8000
    ensures v % 0x1_0000 == u
  {
    if u < 0x8000 then u else u - 0x1_0000
  }

  /** The 16-bit pattern of a signed value; the inverse of `ToInt16`. */
  function FromInt16(v: int): (u: Uint16)
    requires -0x8000 <= v < 0x8000
    ensures ToInt16(u) == v
  {
    if v < 0 then v + 0x1_0000 else v
  }

  lemma FromInt16OfToInt16(u: Uint16)
    ensures FromInt16(ToInt16(u)) == u
  {
  }

  /** Python's `s[lo:hi]` for non-negative bounds: both ends are clamped to the length, never an error. */
  function Slice(s: Bytes, lo: nat, hi: nat): (r: Bytes)
    ensures |r| == if lo <= hi && lo <= |s| then (if hi <= |s| then hi else |s|) - lo else 0
    ensures forall k :: 0 <= k < |r| ==> r[k] == s[lo + k]
  {
    var h := if hi <= |s| then hi else |s|;
    if lo <= h then s[lo..h] else []
  }

  /** Python's `s[lo:]`. */
  function Drop(s: Bytes, lo: nat): (r: Bytes)
    ensures |r| == if lo <= |s| then |s| - lo else 0
    ensures forall k :: 0 <= k < |r| ==> r[k] == s[lo + k]
  {
    if lo <= |s| then s[lo..] else []
  }
}
