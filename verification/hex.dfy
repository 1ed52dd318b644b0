/** Lowercase hexadecimal text (`binascii.hexlify`) and a decoder for it. */
module Hex {
  import opened Bytes
  import opened Faults

  predicate IsHexDigit(c: char) {
    '0' <= c <= '9' || 'a' <= c <= 'f'
  }

  /** The lowercase hex digit for a nibble: `0-9`, then `a-f`. */
  function HexDigit(n: int): (c: char)
    requires 0 <= n < 16
    ensures IsHexDigit(c)
  {
    if n < 10 then ('0' as int + n) as char else ('a' as int + n - 10) as char
  }

  /** A string made only of lowercase hex digits. */
  predicate IsLowerHex(s: string) {
    forall k :: 0 <= k < |s| ==> IsHexDigit(s[k])
  }

  /** The nibble a lowercase hex digit stands for. */
  function DigitValue(c: char): (n: int)
    requires IsHexDigit(c)
    ensures 0 <= n < 16
    ensures HexDigit(n) == c
  {
    if c <= '9' then c as int - '0' as int else c as int - 'a' as int + 10
  }

  lemma DigitValueOfHexDigit(n: int)
    requires 0 <= n < 16
    ensures IsHexDigit(HexDigit(n)) && DigitValue(HexDigit(n)) == n
  {
  }

  /** The byte with high nibble `hi` and low nibble `lo`. */
  function NibblesByte(hi: int, lo: int): (b: Byte)
    requires 0 <= hi < 16 && 0 <= lo < 16
    ensures b / 16 == hi && b % 16 == lo
  {
    hi * 16 + lo
  }

  /** Two lowercase hex digits per byte, high nibble first. */
  function Hexlify(b: Bytes): (s: string)
    ensures |s| == 2 * |b|
    ensures IsLowerHex(s)
  {
    if |b| == 0 then "" else [HexDigit(b[0] / 16), HexDigit(b[0] % 16)] + Hexlify(b[1..])
  }

  /** Byte `k` of the input becomes characters `2k` (high nibble) and `2k+1` (low nibble). */
  lemma {:induction false} HexlifyAt(b: Bytes)
    ensures forall k :: 0 <= k < |b| ==>
      Hexlify(b)[2 * k] == HexDigit(b[k] / 16) && Hexlify(b)[2 * k + 1] == HexDigit(b[k] % 16)
  {
    if |b| > 0 {
      HexlifyAt(b[1..]);
      var s := Hexlify(b);
      assert s == [HexDigit(b[0] / 16), HexDigit(b[0] % 16)] + Hexlify(b[1..]);
      forall k | 1 <= k < |b|
        ensures s[2 * k] == HexDigit(b[k] / 16) && s[2 * k + 1] == HexDigit(b[k] % 16)
      {
        assert b[k] == b[1..][k - 1];
        assert s[2 * k] == Hexlify(b[1..])[2 * (k - 1)];
        assert s[2 * k + 1] == Hexlify(b[1..])[2 * (k - 1) + 1];
      }
    }
  }

  /** Decoder for `Hexlify`'s output: `None` on odd length or a character outside `0-9a-f`. */
  function Unhexlify(s: string): (r: Option<Bytes>)
    ensures r.Some? <==> |s| % 2 == 0 && IsLowerHex(s)
    ensures r.Some? ==> 2 * |r.value| == |s|
    decreases |s|
  {
    if |s| == 0 then Some([])
    else if |s| == 1 || !IsHexDigit(s[0]) || !IsHexDigit(s[1]) then None
    else
      match Unhexlify(s[2..])
      case None =>
        assert !IsLowerHex(s[2..]) || |s[2..]| % 2 != 0;
        None
      case Some(rest) =>
        Some([DigitValue(s[0]) * 16 + DigitValue(s[1])] + rest)
  }

  /** Hex decoding undoes `Hexlify`. */
  lemma {:induction false} UnhexlifyHexlify(b: Bytes)
    ensures Unhexlify(Hexlify(b)) == Some(b)
  {
    if |b| > 0 {
      var hi, lo := b[0] / 16, b[0] % 16;
      var s := Hexlify(b);
      assert s == [HexDigit(hi), HexDigit(lo)] + Hexlify(b[1..]);
      assert s[2..] == Hexlify(b[1..]);
      UnhexlifyHexlify(b[1..]);
      DigitValueOfHexDigit(hi);
      DigitValueOfHexDigit(lo);
      assert DigitValue(s[0]) * 16 + DigitValue(s[1]) == b[0];
      assert Unhexlify(s) == Some([b[0]] + b[1..]);
      assert b == [b[0]] + b[1..];
    }
  }

  /** `Hexlify` undoes hex decoding on well-formed lowercase hex. */
  lemma {:induction false} HexlifyUnhexlify(s: string)
    requires |s| % 2 == 0 && IsLowerHex(s)
    ensures Unhexlify(s).Some? && Hexlify(Unhexlify(s).value) == s
  {
    if |s| > 0 {
      assert IsLowerHex(s[2..]);
      HexlifyUnhexlify(s[2..]);
      var rest := Unhexlify(s[2..]).value;
      var hi, lo := DigitValue(s[0]), DigitValue(s[1]);
      var byte := NibblesByte(hi, lo);
      var b := [byte] + rest;
      assert Unhexlify(s) == Some(b);
      assert b[0] == byte && b[1..] == rest;
      assert HexDigit(hi) == s[0] && HexDigit(lo) == s[1];
      calc {
        Hexlify(b);
        [HexDigit(byte / 16), HexDigit(byte % 16)] + Hexlify(rest);
        [s[0], s[1]] + s[2..];
        s;
      }
    }
  }

  /** Distinct byte strings have distinct hex text. */
  lemma HexlifyInjective(a: Bytes, b: Bytes)
    requires Hexlify(a) == Hexlify(b)
    ensures a == b
  {
    UnhexlifyHexlify(a);
    UnhexlifyHexlify(b);
  }

  /** `s.startswith('10')`. */
  predicate StartsWith10(s: string) {
    |s| >= 2 && s[0] == '1' && s[1] == '0'
  }

  /** The hex text starts with "10" exactly when the first byte is 0x10. */
  lemma StartsWith10Hexlify(b: Bytes)
    ensures StartsWith10(Hexlify(b)) <==> |b| >= 1 && b[0] == 0x10
  {
    if |b| >= 1 {
      var hi, lo := b[0] / 16, b[0] % 16;
      assert b[0] == 16 * hi + lo;
      var s := Hexlify(b);
      assert s[0] == HexDigit(hi) && s[1] == HexDigit(lo);
      DigitValueOfHexDigit(hi);
      DigitValueOfHexDigit(lo);
      assert StartsWith10(s) <==> DigitValue(s[0]) == 1 && DigitValue(s[1]) == 0;
    }
  }
}
