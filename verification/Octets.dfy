/** Octet strings and big-endian integers.

An octet string is a `string` with one `char` per octet. Where the range of an
octet matters it is stated as `IsOctets`, the meaning of the type `u8`. */
module Octets {

  const U32_MAX: nat := 0xFFFF_FFFF
  const U64_MAX: nat := 0xFFFF_FFFF_FFFF_FFFF

  type U64 = n: nat | n <= 0xFFFF_FFFF_FFFF_FFFF

  ghost predicate IsOctets(s: string) {
    forall i :: 0 <= i < |s| ==> s[i] as int < 256
  }

  function Zeros(n: nat): (s: string)
    ensures |s| == n && forall i :: 0 <= i < n ==> s[i] == 0 as char
  {
    if n == 0 then [] else Zeros(n - 1) + [0 as char]
  }

  /** 256 to the power `width`. */
  function Radix(width: nat): (r: nat)
    ensures r >= 1
  {
    if width == 0 then 1 else 256 * Radix(width - 1)
  }

  /** The `width` low octets of `n`, most significant first: a truncating cast
  followed by `to_be_bytes`. */
  function BigEndian(n: nat, width: nat): (s: string)
    ensures |s| == width
    ensures IsOctets(s)
  {
    if width == 0 then [] else BigEndian(n / 256, width - 1) + [(n % 256) as char]
  }

  function FromBigEndian(s: string): nat {
    if s == [] then 0 else FromBigEndian(s[..|s| - 1]) * 256 + s[|s| - 1] as int
  }

  lemma RadixValues()
    ensures Radix(4) == U32_MAX + 1
    ensures Radix(8) == U64_MAX + 1
  {
    assert Radix(2) == 0x1_0000;
    assert Radix(4) == 256 * 256 * Radix(2);
    assert Radix(6) == 256 * 256 * Radix(4);
    assert Radix(8) == 256 * 256 * Radix(6);
  }

  /** What `to_be_bytes` wrote, `from_be_bytes` reads back, up to truncation. */
  lemma {:induction false} BigEndianRoundTrip(n: nat, width: nat)
    ensures n < Radix(width) ==> FromBigEndian(BigEndian(n, width)) == n
  {
    if width > 0 {
      BigEndianRoundTrip(n / 256, width - 1);
      assert BigEndian(n, width)[..width - 1] == BigEndian(n / 256, width - 1);
    }
  }

  lemma LowOctet(n: nat, m: nat)
    ensures (n + 256 * m) / 256 == n / 256 + m && (n + 256 * m) % 256 == n % 256
  {
  }

  lemma Reassociate(k: nat, r: nat)
    ensures k * (256 * r) == 256 * (k * r)
  {
  }

  /** Multiples of the radix are cut off. */
  lemma {:induction false} BigEndianWraps(n: nat, k: nat, width: nat)
    ensures BigEndian(n + k * Radix(width), width) == BigEndian(n, width)
  {
    if width > 0 {
      var lower := k * Radix(width - 1);
      Reassociate(k, Radix(width - 1));
      LowOctet(n, lower);
      BigEndianWraps(n / 256, k, width - 1);
    }
  }

  /** Every octet string is the encoding of the number it stands for. */
  lemma {:induction false} FromBigEndianRoundTrip(s: string)
    requires IsOctets(s)
    ensures FromBigEndian(s) < Radix(|s|)
    ensures BigEndian(FromBigEndian(s), |s|) == s
  {
    if s != [] {
      var k := |s| - 1;
      FromBigEndianRoundTrip(s[..k]);
      var n := FromBigEndian(s);
      assert n / 256 == FromBigEndian(s[..k]) && n % 256 == s[k] as int;
      assert s == s[..k] + [s[k]];
    }
  }
}
