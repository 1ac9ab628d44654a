/** Proof of work on stored blobs: the text that is hashed, the client's search
and the server's check. The hash function is a parameter. */
module ProofOfWork {
  import opened Wrappers
  import opened Octets
  import opened Text

  const POW_ZERO_BITS: nat := 20
  const MAX_KEY: nat := 128
  const DIGEST_OCTETS: nat := 32

  type Digest = seq<bv8>

  /** All that is used of SHA-256: digests have 32 octets. */
  ghost predicate GivesDigests(hash: string -> Digest) {
    forall m :: |hash(m)| == DIGEST_OCTETS
  }

  // ---------- keys and material ----------

  predicate IsKeyChar(c: char) {
    '0' <= c <= '9' || 'A' <= c <= 'Z' || 'a' <= c <= 'z' || c == '_' || c == '-'
  }

  predicate IsValidKey(key: string) {
    key != [] && |key| <= MAX_KEY && forall i :: 0 <= i < |key| ==> IsKeyChar(key[i])
  }

  function Material(key: string, size: nat, blob: string, counter: nat): string {
    Join(["POWv1", key, Dec(size), blob, Dec(counter)], '|')
  }

  lemma JoinFive(a: string, b: string, c: string, d: string, e: string)
    ensures Join([a, b, c, d, e], '|') == a + ['|'] + (b + ['|'] + (c + ['|'] + (d + ['|'] + e)))
  {
    assert [d, e][1..] == [e] && [c, d, e][1..] == [d, e];
    assert [b, c, d, e][1..] == [c, d, e] && [a, b, c, d, e][1..] == [b, c, d, e];
    assert Join([d, e], '|') == d + ['|'] + e;
    assert Join([c, d, e], '|') == c + ['|'] + Join([d, e], '|');
    assert Join([b, c, d, e], '|') == b + ['|'] + Join([c, d, e], '|');
  }

  /** The server fills its buffer field by field. */
  method PowMaterial(key: string, size: nat, blob: string, counter: nat) returns (material: string)
    ensures material == Material(key, size, blob, counter)
  {
    material := "POWv1";
    material := material + ['|'];
    material := material + key;
    material := material + ['|'];
    material := material + Dec(size);
    material := material + ['|'];
    material := material + blob;
    material := material + ['|'];
    material := material + Dec(counter);
    JoinFive("POWv1", key, Dec(size), blob, Dec(counter));
    LeftToRight("POWv1", key, Dec(size), blob, Dec(counter));
  }

  lemma LeftToRight(a: string, b: string, c: string, d: string, e: string)
    ensures a + ['|'] + b + ['|'] + c + ['|'] + d + ['|'] + e == a + ['|'] + (b + ['|'] + (c + ['|'] + (d + ['|'] + e)))
  {
  }

  lemma ValidKeyPlain(key: string)
    requires IsValidKey(key)
    ensures NoSpace(key) && '|' !in key && '\n' !in key
  {
    forall i | 0 <= i < |key| ensures !IsSpace(key[i]) && key[i] != '|' && key[i] != '\n' {
      assert IsKeyChar(key[i]);
    }
  }

  lemma MaterialFields(key: string, size: nat, blob: string, counter: nat)
    requires '|' !in key
    ensures var afterSize := blob + ['|'] + Dec(counter);
            var afterKey := Dec(size) + ['|'] + afterSize;
            && SplitOnce(Material(key, size, blob, counter), '|') == Some(("POWv1", key + ['|'] + afterKey))
            && SplitOnce(key + ['|'] + afterKey, '|') == Some((key, afterKey))
            && SplitOnce(afterKey, '|') == Some((Dec(size), afterSize))
  {
    var afterSize := blob + ['|'] + Dec(counter);
    var afterKey := Dec(size) + ['|'] + afterSize;
    DecPlain(size);
    SplitOnceAfter(Dec(size), '|', afterSize);
    SplitOnceAfter(key, '|', afterKey);
    SplitOnceAfter("POWv1", '|', key + ['|'] + afterKey);
    JoinFive("POWv1", key, Dec(size), blob, Dec(counter));
  }

  /** Work is bound to what is stored: no other key, blob or counter has the
  same material, even when a blob itself holds separators and digits. */
  lemma MaterialInjective(key: string, blob: string, counter: nat, key': string, blob': string, counter': nat)
    requires IsValidKey(key) && IsValidKey(key')
    requires Material(key, |blob|, blob, counter) == Material(key', |blob'|, blob', counter')
    ensures key == key' && blob == blob' && counter == counter'
  {
    ValidKeyPlain(key);
    ValidKeyPlain(key');
    MaterialFields(key, |blob|, blob, counter);
    MaterialFields(key', |blob'|, blob', counter');
    DecInjective(|blob|, |blob'|);
    TailInjective(blob, counter, blob', counter');
  }

  lemma TailInjective(blob: string, counter: nat, blob': string, counter': nat)
    requires |blob| == |blob'|
    requires blob + ['|'] + Dec(counter) == blob' + ['|'] + Dec(counter')
    ensures blob == blob' && counter == counter'
  {
    var all, all' := blob + ['|'] + Dec(counter), blob' + ['|'] + Dec(counter');
    assert all[..|blob|] == blob && all'[..|blob|] == blob';
    assert all[|blob| + 1..] == Dec(counter) && all'[|blob| + 1..] == Dec(counter');
    DecInjective(counter, counter');
  }

  /** Without the key check it would not be: a separator in the key moves the
  boundary between key, size and blob. */
  lemma KeyCheckNeeded()
    ensures Material("k|2|a", 2, "bc", 7) == Material("k", 2, "a|2|bc", 7)
  {
    assert Dec(2) == "2";
    var tail := "bc" + ['|'] + Dec(7);
    JoinFive("POWv1", "k|2|a", "2", "bc", Dec(7));
    JoinFive("POWv1", "k", "2", "a|2|bc", Dec(7));
    assert "k|2|a" + ['|'] + ("2" + ['|'] + tail) == "k" + ['|'] + ("2" + ['|'] + ("a|2|bc" + ['|'] + Dec(7)));
  }

  // ---------- the digest tests ----------

  function Pow2(n: nat): (r: nat)
    ensures r >= 1
  {
    if n == 0 then 1 else 2 * Pow2(n - 1)
  }

  /** A digest as a big-endian number. */
  function Value(d: Digest): nat {
    if d == [] then 0 else Value(d[..|d| - 1]) * 256 + d[|d| - 1] as nat
  }

  predicate AllZero(d: Digest) {
    forall i :: 0 <= i < |d| ==> d[i] == 0
  }

  /** The client's test, for any number of bits; it indexes past the end only
  when the digest stops inside the last, partial octet. */
  predicate HasLeadingZeroBits(hash: Digest, bits: nat)
    requires bits % 8 == 0 || |hash| != bits / 8
  {
    var full := bits / 8;
    var rem := bits % 8;
    && |hash| >= full
    && AllZero(hash[..full])
    && (rem == 0 || hash[full] & (0xFF << (8 - rem)) == 0)
  }

  /** The server's test, for its fixed number of bits. */
  predicate PowOk(digest: Digest) {
    var zeroOctets := POW_ZERO_BITS / 8;
    var rem := POW_ZERO_BITS % 8;
    && |digest| > zeroOctets
    && AllZero(digest[..zeroOctets])
    && (rem == 0 || digest[zeroOctets] & (0xFF << (8 - rem)) == 0)
  }

  predicate VerifyPutPow(hash: string -> Digest, key: string, size: nat, blob: string, counter: nat) {
    PowOk(hash(Material(key, size, blob, counter)))
  }

  lemma MaskTest(b: bv8, rem: nat)
    requires 1 <= rem <= 7
    ensures b & (0xFF << (8 - rem)) == 0 <==> b as nat < Pow2(8 - rem)
  {
    if rem <= 3 {
      ShortMask(b, rem);
    } else {
      LongMask(b, rem);
    }
  }

  lemma ShortMask(b: bv8, rem: nat)
    requires 1 <= rem <= 3
    ensures b & (0xFF << (8 - rem)) == 0 <==> b as nat < Pow2(8 - rem)
  {
    assert Pow2(7) == 128 && Pow2(6) == 64 && Pow2(5) == 32;
    if rem == 1 { assert b & 0x80 == 0 <==> b < 0x80; }
    else if rem == 2 { assert b & 0xC0 == 0 <==> b < 0x40; }
    else { assert b & 0xE0 == 0 <==> b < 0x20; }
  }

  lemma LongMask(b: bv8, rem: nat)
    requires 4 <= rem <= 7
    ensures b & (0xFF << (8 - rem)) == 0 <==> b as nat < Pow2(8 - rem)
  {
    assert Pow2(4) == 16 && Pow2(3) == 8 && Pow2(2) == 4 && Pow2(1) == 2;
    if rem == 4 { assert b & 0xF0 == 0 <==> b < 0x10; }
    else if rem == 5 { assert b & 0xF8 == 0 <==> b < 0x08; }
    else if rem == 6 { assert b & 0xFC == 0 <==> b < 0x04; }
    else { assert b & 0xFE == 0 <==> b < 0x02; }
  }

  lemma {:induction false} Pow2Add(a: nat, b: nat)
    ensures Pow2(a + b) == Pow2(a) * Pow2(b)
  {
    if a > 0 {
      Pow2Add(a - 1, b);
    }
  }

  lemma {:induction false} RadixIsPow2(n: nat)
    ensures Radix(n) == Pow2(8 * n)
  {
    if n > 0 {
      RadixIsPow2(n - 1);
      assert Pow2(8) == 256 by { assert Pow2(4) == 16; Pow2Add(4, 4); }
      Pow2Add(8, 8 * (n - 1));
    }
  }

  lemma {:induction false} ValueBound(d: Digest)
    ensures Value(d) < Radix(|d|)
  {
    if d != [] {
      ValueBound(d[..|d| - 1]);
    }
  }

  lemma {:induction false} ValueConcat(a: Digest, b: Digest)
    ensures Value(a + b) == Value(a) * Radix(|b|) + Value(b)
    decreases |b|
  {
    if b == [] {
      assert a + b == a;
    } else {
      var k := |b| - 1;
      assert (a + b)[..|a + b| - 1] == a + b[..k];
      ValueConcat(a, b[..k]);
      Shift(Value(a), Radix(k), Value(b[..k]));
    }
  }

  lemma Shift(a: nat, r: nat, v: nat)
    ensures (a * r + v) * 256 == a * (256 * r) + v * 256
  {
  }

  lemma {:induction false} ValueZero(d: Digest)
    ensures Value(d) == 0 <==> AllZero(d)
  {
    if d != [] {
      var k := |d| - 1;
      ValueZero(d[..k]);
      assert AllZero(d) <==> AllZero(d[..k]) && d[k] == 0;
    }
  }

  lemma DigitCompare(b: nat, r: nat, v: nat, t: nat)
    requires v < r
    ensures b * r + v < t * r <==> b < t
  {
    if b < t {
      assert (b + 1) * r <= t * r;
    } else {
      assert b * r >= t * r;
    }
  }

  /** The octet-and-mask test is the comparison of the digest, as a number, with
  a power of two, for every number of bits the digest has. */
  lemma LeadingZerosIsSmall(d: Digest, bits: nat)
    requires bits <= 8 * |d|
    ensures HasLeadingZeroBits(d, bits) <==> Value(d) < Pow2(8 * |d| - bits)
  {
    var full, rem := bits / 8, bits % 8;
    assert bits == 8 * full + rem && (rem > 0 ==> full < |d|);
    HeadAndTail(d, full, rem);
  }

  /** Whole zero octets, then one that is zero in front. */
  lemma HeadAndTail(d: Digest, full: nat, rem: nat)
    requires full <= |d| && rem <= 7 && (rem > 0 ==> full < |d|)
    ensures AllZero(d[..full]) && (rem == 0 || d[full] & (0xFF << (8 - rem)) == 0) <==> Value(d) < Pow2(8 * (|d| - full) - rem)
  {
    var head, tail := d[..full], d[full..];
    assert d == head + tail;
    HeadMustVanish(head, tail, 8 * |tail| - rem);
    if AllZero(head) {
      TailDecides(tail, rem);
    }
  }

  lemma TailDecides(tail: Digest, rem: nat)
    requires rem <= 7 && (rem > 0 ==> tail != [])
    ensures (rem == 0 || tail[0] & (0xFF << (8 - rem)) == 0) <==> Value(tail) < Pow2(8 * |tail| - rem)
  {
    if rem > 0 {
      PartialOctet(tail, rem);
    } else {
      ValueBound(tail);
      RadixIsPow2(|tail|);
    }
  }

  /** A digest below the bound has zeros in front, and then only the rest counts. */
  lemma HeadMustVanish(head: Digest, tail: Digest, exponent: nat)
    requires exponent <= 8 * |tail|
    ensures AllZero(head) ==> Value(head + tail) == Value(tail)
    ensures !AllZero(head) ==> Value(head + tail) >= Pow2(exponent)
  {
    ValueConcat(head, tail);
    ValueZero(head);
    RadixIsPow2(|tail|);
    Pow2Monotone(exponent, 8 * |tail|);
    if !AllZero(head) {
      DigitCompare(Value(head), Radix(|tail|), 0, 1);
    }
  }

  lemma PartialOctet(tail: Digest, rem: nat)
    requires tail != [] && 1 <= rem <= 7
    ensures tail[0] & (0xFF << (8 - rem)) == 0 <==> Value(tail) < Pow2(8 * |tail| - rem)
  {
    MaskTest(tail[0], rem);
    FirstOctetDecides(tail, 8 - rem);
  }

  /** Below the bound iff the first octet is below its part of it. */
  lemma FirstOctetDecides(d: Digest, bits: nat)
    requires d != [] && bits <= 8
    ensures d[0] as nat < Pow2(bits) <==> Value(d) < Pow2(8 * |d| - (8 - bits))
  {
    var rest := d[1..];
    FirstOctet(d);
    ValueBound(rest);
    BoundSplits(bits, |rest|);
    assert 8 * |d| - (8 - bits) == bits + 8 * |rest|;
    DigitCompare(d[0] as nat, Radix(|rest|), Value(rest), Pow2(bits));
  }

  lemma FirstOctet(d: Digest)
    requires d != []
    ensures Value(d) == d[0] as nat * Radix(|d| - 1) + Value(d[1..])
  {
    var b, rest := d[0], d[1..];
    assert d == [b] + rest;
    ValueConcat([b], rest);
    assert Value([b]) == b as nat;
  }

  lemma BoundSplits(bits: nat, octets: nat)
    ensures Pow2(bits + 8 * octets) == Pow2(bits) * Radix(octets)
  {
    RadixIsPow2(octets);
    Pow2Add(bits, 8 * octets);
  }

  lemma {:induction false} Pow2Monotone(a: nat, b: nat)
    requires a <= b
    ensures Pow2(a) <= Pow2(b)
  {
    if a < b {
      Pow2Monotone(a, b - 1);
    }
  }

  /** Client and server test alike at the server's difficulty. */
  lemma SameTest(d: Digest)
    requires 8 * |d| >= POW_ZERO_BITS
    ensures PowOk(d) <==> HasLeadingZeroBits(d, POW_ZERO_BITS)
  {
  }

  /** More zero bits than the server asks for are enough for it. */
  lemma EnoughBitsPass(d: Digest, bits: nat)
    requires POW_ZERO_BITS <= bits <= 8 * |d|
    requires HasLeadingZeroBits(d, bits)
    ensures PowOk(d)
  {
    FewerBits(d, bits, POW_ZERO_BITS);
    SameTest(d);
  }

  lemma FewerBits(d: Digest, bits: nat, fewer: nat)
    requires fewer <= bits <= 8 * |d| && HasLeadingZeroBits(d, bits)
    ensures HasLeadingZeroBits(d, fewer)
  {
    LeadingZerosIsSmall(d, bits);
    SmallIsZeros(d, bits, fewer);
  }

  lemma SmallIsZeros(d: Digest, bits: nat, fewer: nat)
    requires fewer <= bits <= 8 * |d| && Value(d) < Pow2(8 * |d| - bits)
    ensures HasLeadingZeroBits(d, fewer)
  {
    Pow2Monotone(8 * |d| - bits, 8 * |d| - fewer);
    LeadingZerosIsSmall(d, fewer);
  }

  // ---------- the search ----------

  ghost predicate Passes(hash: string -> Digest, bits: nat, key: string, blob: string, counter: nat)
    requires bits <= 8 * DIGEST_OCTETS && GivesDigests(hash)
  {
    HasLeadingZeroBits(hash(Material(key, |blob|, blob, counter)), bits)
  }

  /** The client's loop. It ends when some counter of the type passes, and then
  gives the least one. */
  method FindPowCounter(hash: string -> Digest, bits: nat, key: string, blob: string, ghost found: nat)
    returns (counter: nat)
    requires GivesDigests(hash) && bits <= 8 * DIGEST_OCTETS
    requires found <= U64_MAX && Passes(hash, bits, key, blob, found)
    ensures counter <= U64_MAX && Passes(hash, bits, key, blob, counter)
    ensures forall c :: 0 <= c < counter ==> !Passes(hash, bits, key, blob, c)
  {
    var base := SearchPrefix(key, blob);
    counter := 0;
    while true
      invariant counter <= found
      invariant forall c :: 0 <= c < counter ==> !Passes(hash, bits, key, blob, c)
      decreases found - counter
    {
      var good := TryCounter(hash, bits, base, key, blob, counter);
      if good {
        return;
      }
      counter := WrappingNext(counter);
    }
  }

  /** `wrapping_add(1)`. */
  method WrappingNext(counter: nat) returns (next: nat)
    requires counter <= U64_MAX
    ensures next <= U64_MAX && (counter < U64_MAX ==> next == counter + 1)
    ensures counter == U64_MAX ==> next == 0
  {
    next := if counter == U64_MAX then 0 else counter + 1;
  }

  /** One turn: the hash state of the prefix, completed by the counter. */
  method TryCounter(hash: string -> Digest, bits: nat, base: string, ghost key: string, ghost blob: string, counter: nat)
    returns (good: bool)
    requires GivesDigests(hash) && bits <= 8 * DIGEST_OCTETS
    requires base == SearchPrefix(key, blob)
    ensures good == Passes(hash, bits, key, blob, counter)
  {
    PrefixCompletes(key, blob, counter);
    var digest := hash(base + Dec(counter));
    good := HasLeadingZeroBits(digest, bits);
  }

  /** What is hashed once, before the search starts. */
  function SearchPrefix(key: string, blob: string): string {
    Join(["POWv1", key, Dec(|blob|), blob, ""], '|')
  }

  lemma PrefixCompletes(key: string, blob: string, counter: nat)
    ensures SearchPrefix(key, blob) + Dec(counter) == Material(key, |blob|, blob, counter)
  {
    GlueLast("POWv1", key, Dec(|blob|), blob, Dec(counter));
    JoinFive("POWv1", key, Dec(|blob|), blob, "");
    JoinFive("POWv1", key, Dec(|blob|), blob, Dec(counter));
    assert blob + ['|'] + "" == blob + ['|'];
  }

  lemma GlueLast(a: string, b: string, c: string, d: string, e: string)
    ensures a + ['|'] + (b + ['|'] + (c + ['|'] + (d + ['|']))) + e
         == a + ['|'] + (b + ['|'] + (c + ['|'] + (d + ['|'] + e)))
  {
    Glue(a, b + ['|'] + (c + ['|'] + (d + ['|'])), e);
    Glue(b, c + ['|'] + (d + ['|']), e);
    Glue(c, d + ['|'], e);
  }

  lemma Glue(a: string, b: string, c: string)
    ensures a + ['|'] + b + c == a + ['|'] + (b + c)
  {
  }

  /** Whatever the client finds, at the server's difficulty or above, the server
  accepts for the same key and blob. */
  lemma ServerAcceptsFound(hash: string -> Digest, bits: nat, key: string, blob: string, counter: nat)
    requires GivesDigests(hash) && POW_ZERO_BITS <= bits <= 8 * DIGEST_OCTETS
    requires Passes(hash, bits, key, blob, counter)
    ensures VerifyPutPow(hash, key, |blob|, blob, counter)
  {
    EnoughBitsPass(hash(Material(key, |blob|, blob, counter)), bits);
  }
}
