/**
  The number encoding of srp.go: fixed-width little-endian byte strings made
  from, and read into, unbounded integers by reversing a buffer in place.
 */
module Codec {
  import opened NumberTheory

  type byte = b: int | 0 <= b < 256

  function Reversed<T>(s: seq<T>): seq<T> {
    seq(|s|, i requires 0 <= i < |s| => s[|s| - 1 - i])
  }

  /** The value `big.Int.SetBytes` reads: most significant byte first. */
  function BigEndian(s: seq<byte>): nat {
    if s == [] then 0 else 256 * BigEndian(s[..|s| - 1]) + s[|s| - 1]
  }

  /** The minimal big-endian form `big.Int.Bytes` returns. */
  function Bytes(n: nat): seq<byte> {
    if n == 0 then [] else Bytes(n / 256) + [n % 256]
  }

  /** The wire format: the value with the least significant byte first. */
  function LittleEndian(s: seq<byte>): nat {
    if s == [] then 0 else s[0] + 256 * LittleEndian(s[1..])
  }

  /** The wire format: exactly `w` bytes, least significant first. */
  function Fixed(n: nat, w: nat): (s: seq<byte>)
    ensures |s| == w
  {
    if w == 0 then [] else [n % 256] + Fixed(n / 256, w - 1)
  }

  function BitLen(n: nat): nat {
    if n == 0 then 0 else 1 + BitLen(n / 2)
  }

  function Zeros(k: nat): seq<byte> {
    seq(k, _ => 0)
  }

  // ---- reversal ----

  /** Running the in-place loop twice restores the buffer. */
  lemma ReversedTwice<T>(s: seq<T>)
    ensures Reversed(Reversed(s)) == s
  {}

  lemma {:induction false} BigEndianReversed(s: seq<byte>)
    ensures LittleEndian(Reversed(s)) == BigEndian(s)
  {
    if s == [] {
    } else {
      BigEndianReversed(s[..|s| - 1]);
      assert Reversed(s)[1..] == Reversed(s[..|s| - 1]);
    }
  }

  // ---- what fits, and how ----

  /** `n` needs more than `w` bytes exactly when it is at least 256^w. */
  lemma {:induction false} BytesFit(n: nat, w: nat)
    ensures |Bytes(n)| <= w <==> n < Pow(256, w)
  {
    PowPos(256, w);
    if n == 0 || w == 0 {
    } else {
      BytesFit(n / 256, w - 1);
    }
  }

  lemma {:induction false} FixedZero(w: nat)
    ensures Fixed(0, w) == Zeros(w)
  {
    if w == 0 {
    } else {
      FixedZero(w - 1);
    }
  }

  lemma {:induction false} FixedIsPaddedBytes(n: nat, w: nat)
    requires |Bytes(n)| <= w
    ensures Fixed(n, w) == Reversed(Bytes(n)) + Zeros(w - |Bytes(n)|)
  {
    if n == 0 {
      FixedZero(w);
    } else {
      FixedIsPaddedBytes(n / 256, w - 1);
      assert Reversed(Bytes(n)) == [n % 256] + Reversed(Bytes(n / 256));
    }
  }

  /** Encoding then decoding restores every number that fits. */
  lemma {:induction false} DecodeFixed(n: nat, w: nat)
    requires n < Pow(256, w)
    ensures LittleEndian(Fixed(n, w)) == n
  {
    if w == 0 {
    } else {
      DecodeFixed(n / 256, w - 1);
      assert Fixed(n, w)[1..] == Fixed(n / 256, w - 1);
    }
  }

  /** Decoding then encoding restores every byte string of the fixed width. */
  lemma {:induction false} FixedDecode(s: seq<byte>)
    ensures LittleEndian(s) < Pow(256, |s|)
    ensures Fixed(LittleEndian(s), |s|) == s
  {
    if s == [] {
    } else {
      FixedDecode(s[1..]);
      assert LittleEndian(s) / 256 == LittleEndian(s[1..]) && LittleEndian(s) % 256 == s[0];
      assert s == [s[0]] + s[1..];
    }
  }

  /** A bit length pins a number between two powers of two. */
  lemma {:induction false} BitLenRange(n: nat)
    ensures n < Pow(2, BitLen(n))
    ensures n > 0 ==> BitLen(n) > 0 && Pow(2, BitLen(n) - 1) <= n
  {
    if n == 0 {
    } else {
      BitLenRange(n / 2);
    }
  }

  lemma {:induction false} BytesOfBits(w: nat)
    ensures Pow(2, 8 * w) == Pow(256, w)
  {
    if w == 0 {
    } else {
      BytesOfBits(w - 1);
      PowAdd(2, 8, 8 * (w - 1));
      assert Pow(2, 8) == 256 by {
        assert Pow(2, 4) == 16;
        PowAdd(2, 4, 4);
      }
    }
  }

  // ---- the in-place code ----

  method Reverse(b: array<byte>)
    modifies b
    ensures b[..] == Reversed(old(b[..]))
  {
    var i := 0;
    while i < b.Length / 2
      invariant 0 <= i <= b.Length / 2
      invariant forall k :: 0 <= k < i ==> b[k] == old(b[b.Length - 1 - k]) && b[b.Length - 1 - k] == old(b[k])
      invariant forall k :: i <= k < b.Length - i ==> b[k] == old(b[k])
    {
      var j := b.Length - 1 - i;
      b[i], b[j] := b[j], b[i];
      i := i + 1;
    }
  }

  /** `itoa`; Go panics on a negative padding length exactly when `n` does not fit. */
  method Itoa(n: nat, l: nat) returns (r: seq<byte>)
    requires n < Pow(256, l / 8)
    ensures r == Fixed(n, l / 8)
  {
    var digits := Bytes(n);
    var b := new byte[|digits|](i requires 0 <= i < |digits| => digits[i]);
    assert b[..] == digits;
    Reverse(b);
    BytesFit(n, l / 8);
    var padding := Zeros(l / 8 - b.Length);
    r := b[..] + padding;
    FixedIsPaddedBytes(n, l / 8);
  }

  method Atoi(b: array<byte>) returns (n: nat)
    modifies b
    ensures b[..] == Reversed(old(b[..]))
    ensures n == LittleEndian(old(b[..]))
  {
    Reverse(b);
    n := BigEndian(b[..]);
    ReversedTwice(old(b[..]));
    BigEndianReversed(b[..]);
  }
}
