/**
 Base-256 numerals of a fixed width: the byte images of machine words
 (include/net/byte_io.hpp) and of big numbers (include/security/srp6.hpp) are
 both instances.
 */
module Numerals {
  type Byte = b: int | 0 <= b < 0x100
  type Bytes = seq<Byte>

  function Pow(b: int, e: nat): int {
    if e == 0 then 1 else b * Pow(b, e - 1)
  }

  /** The `len` low base-256 digits of n, most significant first. */
  function BigEndian(n: nat, len: nat): (s: Bytes)
    ensures |s| == len
  {
    if len == 0 then [] else BigEndian(n / 0x100, len - 1) + [n % 0x100]
  }

  function FromBigEndian(s: Bytes): (n: nat)
    ensures n < Pow(0x100, |s|)
  {
    if s == [] then 0
    else FromBigEndian(s[..|s| - 1]) * 0x100 + s[|s| - 1] as int
  }

  function Reverse(s: Bytes): (r: Bytes)
    ensures |r| == |s| && forall i :: 0 <= i < |s| ==> r[i] == s[|s| - 1 - i]
  {
    seq(|s|, i requires 0 <= i < |s| => s[|s| - 1 - i])
  }

  lemma ReverseTwice(s: Bytes)
    ensures Reverse(Reverse(s)) == s
  {}

  /** A number survives exactly when it fits the width. */
  lemma {:induction false} NumberRoundTrip(n: nat, len: nat)
    ensures FromBigEndian(BigEndian(n, len)) == n <==> n < Pow(0x100, len)
  {
    if len > 0 {
      var s := BigEndian(n, len);
      assert s[..len - 1] == BigEndian(n / 0x100, len - 1);
      NumberRoundTrip(n / 0x100, len - 1);
    }
  }

  lemma {:induction false} DigitsRoundTrip(s: Bytes)
    ensures BigEndian(FromBigEndian(s), |s|) == s
  {
    if s != [] {
      var init := s[..|s| - 1];
      DigitsRoundTrip(init);
      assert FromBigEndian(s) / 0x100 == FromBigEndian(init);
      assert FromBigEndian(s) % 0x100 == s[|s| - 1];
      assert s == init + [s[|s| - 1]];
    }
  }

  /** Seen from the front: the first byte is the most significant one. */
  lemma {:induction false} FirstByteLeads(d: Byte, s: Bytes)
    ensures FromBigEndian([d] + s) == d * Pow(0x100, |s|) + FromBigEndian(s)
  {
    if s == [] {
      assert [d] + s == [d] && [d][..0] == [];
      assert FromBigEndian([d]) == FromBigEndian([]) * 0x100 + d;
    } else {
      var n := |s| - 1;
      FirstByteLeads(d, s[..n]);
      assert ([d] + s)[..n + 1] == [d] + s[..n];
      assert ([d] + s)[n + 1] == s[n];
      assert FromBigEndian([d] + s) == FromBigEndian([d] + s[..n]) * 0x100 + s[n];
      assert (d * Pow(0x100, n)) * 0x100 == d * Pow(0x100, n + 1);
    }
  }

  lemma WordSizes()
    ensures Pow(0x100, 2) == 0x1_0000 && Pow(0x100, 4) == 0x1_0000_0000
  {}
}
