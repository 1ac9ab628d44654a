/** The addresses of the program: the SHA-256 digest of a destination in base 32,
in lower case, with a fixed ending. They have one length and tell digests apart. */
module Addresses {
  import opened Octets
  import opened Text

  const DIGEST_OCTETS: nat := 32
  const DIGITS: nat := 52
  const ENDING: string := ".b32.i2p"
  const ADDRESS_LENGTH: nat := 60

  function DigitChar(d: nat): char
    requires d < 32
  {
    if d < 26 then ('a' as int + d) as char else ('2' as int + d - 26) as char
  }

  /** The `n` low digits of `v`, most significant first. */
  function Base32(v: nat, n: nat): (s: string)
    ensures |s| == n
    ensures forall i :: 0 <= i < n ==> LowerChar(s[i]) == s[i]
  {
    if n == 0 then [] else Base32(v / 32, n - 1) + [DigitChar(v % 32)]
  }

  /** Base 32 without padding takes five bits a digit; 256 bits leave four zeros at
  the end of the last. */
  function Address(digest: string): (address: string)
    requires |digest| == DIGEST_OCTETS
    ensures |address| == ADDRESS_LENGTH
  {
    Base32(FromBigEndian(digest) * 16, DIGITS) + ENDING
  }

  /** Letters and the digits 2 to 7, then the ending. */
  lemma AddressForm(digest: string)
    requires |digest| == DIGEST_OCTETS
    ensures Address(digest)[52..] == ".b32.i2p"
    ensures forall i :: 0 <= i < 52 ==> 'a' <= Address(digest)[i] <= 'z' || '2' <= Address(digest)[i] <= '7'
  {
    DigitsForm(FromBigEndian(digest) * 16, DIGITS);
  }

  lemma {:induction false} DigitsForm(v: nat, n: nat)
    ensures forall i :: 0 <= i < n ==> 'a' <= Base32(v, n)[i] <= 'z' || '2' <= Base32(v, n)[i] <= '7'
  {
    if n > 0 {
      DigitsForm(v / 32, n - 1);
    }
  }

  function Pow32(n: nat): nat {
    if n == 0 then 1 else 32 * Pow32(n - 1)
  }

  lemma DigitCharInjective(a: nat, b: nat)
    requires a < 32 && b < 32 && DigitChar(a) == DigitChar(b)
    ensures a == b
  {
  }

  lemma {:induction false} Base32Injective(u: nat, v: nat, n: nat)
    requires u < Pow32(n) && v < Pow32(n) && Base32(u, n) == Base32(v, n)
    ensures u == v
  {
    if n > 0 {
      var s, t := Base32(u, n), Base32(v, n);
      assert s[n - 1] == DigitChar(u % 32) && t[n - 1] == DigitChar(v % 32);
      DigitCharInjective(u % 32, v % 32);
      assert s[..n - 1] == Base32(u / 32, n - 1) && t[..n - 1] == Base32(v / 32, n - 1);
      Base32Injective(u / 32, v / 32, n - 1);
    }
  }

  lemma {:induction false} RadixAdd(a: nat, b: nat)
    ensures Radix(a + b) == Radix(a) * Radix(b)
  {
    if a > 0 {
      RadixAdd(a - 1, b);
      assert Radix(a + b) == 256 * (Radix(a - 1) * Radix(b));
    }
  }

  lemma {:induction false} Pow32Add(a: nat, b: nat)
    ensures Pow32(a + b) == Pow32(a) * Pow32(b)
  {
    if a > 0 {
      Pow32Add(a - 1, b);
      assert Pow32(a + b) == 32 * (Pow32(a - 1) * Pow32(b));
    }
  }

  /** Five octets are eight digits. */
  lemma {:induction false} FiveOctets(k: nat)
    ensures Radix(5 * k) == Pow32(8 * k)
  {
    if k > 0 {
      FiveOctets(k - 1);
      RadixAdd(5, 5 * (k - 1));
      Pow32Add(8, 8 * (k - 1));
      FiveIsEight();
    }
  }

  lemma FiveIsEight()
    ensures Radix(5) == Pow32(8)
  {
    assert Radix(3) == 0x100_0000 && Pow32(4) == 0x10_0000;
    assert Radix(5) == 256 * 256 * Radix(3);
    assert Pow32(8) == 32 * 32 * 32 * 32 * Pow32(4);
  }

  lemma DigestFits(digest: string)
    requires |digest| == DIGEST_OCTETS && IsOctets(digest)
    ensures FromBigEndian(digest) * 16 < Pow32(DIGITS)
  {
    FromBigEndianRoundTrip(digest);
    FiveOctets(6);
    RadixAdd(30, 2);
    Pow32Add(48, 4);
    assert Radix(2) == 0x1_0000 && Pow32(4) == 0x10_0000;
    assert Radix(32) * 16 == Radix(30) * (Radix(2) * 16);
  }

  /** Different destinations have different addresses, up to a collision of the
  hash, whatever the letter case. */
  lemma AddressInjective(a: string, b: string)
    requires |a| == |b| == DIGEST_OCTETS && IsOctets(a) && IsOctets(b)
    ensures SameIgnoringCase(Address(a), Address(b)) <==> a == b
  {
    if SameIgnoringCase(Address(a), Address(b)) {
      LowerAddress(a);
      LowerAddress(b);
      SameIgnoringCaseIffLowerEqual(Address(a), Address(b));
      SameFront(Base32(FromBigEndian(a) * 16, DIGITS), Base32(FromBigEndian(b) * 16, DIGITS), ENDING);
      DigestFits(a);
      DigestFits(b);
      SameDigits(FromBigEndian(a), FromBigEndian(b), DIGITS);
      SameNumber(a, b);
    }
  }

  lemma SameFront(a: string, b: string, end: string)
    requires a + end == b + end
    ensures a == b
  {
    assert |a| == |b|;
    assert (a + end)[..|a|] == a && (b + end)[..|b|] == b;
  }

  lemma SameDigits(u: nat, v: nat, n: nat)
    requires u * 16 < Pow32(n) && v * 16 < Pow32(n) && Base32(u * 16, n) == Base32(v * 16, n)
    ensures u == v
  {
    Base32Injective(u * 16, v * 16, n);
  }

  lemma SameNumber(a: string, b: string)
    requires |a| == |b| && IsOctets(a) && IsOctets(b) && FromBigEndian(a) == FromBigEndian(b)
    ensures a == b
  {
    FromBigEndianRoundTrip(a);
    FromBigEndianRoundTrip(b);
  }

  lemma LowerAddress(digest: string)
    requires |digest| == DIGEST_OCTETS
    ensures Lower(Address(digest)) == Address(digest)
  {
  }
}
