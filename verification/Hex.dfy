/** Octets as hexadecimal text. */
module Hex {
  import opened Wrappers
  import opened Octets
  import opened Text

  function HexDigit(n: nat): char
    requires n < 16
  {
    if n < 10 then ('0' as int + n) as char else ('a' as int + n - 10) as char
  }

  function HexValue(c: char): Option<nat> {
    if '0' <= c <= '9' then Some(c as int - '0' as int)
    else if 'a' <= c <= 'f' then Some(c as int - 'a' as int + 10)
    else if 'A' <= c <= 'F' then Some(c as int - 'A' as int + 10)
    else None
  }

  function HexEncode(octets: string): string {
    if octets == [] then []
    else [HexDigit(octets[0] as int / 16 % 16), HexDigit(octets[0] as int % 16)] + HexEncode(octets[1..])
  }

  function HexDecode(s: string): Option<string> {
    if s == [] then Some([])
    else if |s| < 2 || HexValue(s[0]).None? || HexValue(s[1]).None? then None
    else
      match HexDecode(s[2..])
      case None => None
      case Some(rest) => Some([(HexValue(s[0]).value * 16 + HexValue(s[1]).value) as char] + rest)
  }

  lemma HexDigitRoundTrip(n: nat)
    requires n < 16
    ensures HexValue(HexDigit(n)) == Some(n) && !IsSpace(HexDigit(n))
  {
  }

  lemma {:induction false} HexRoundTrip(octets: string)
    requires IsOctets(octets)
    ensures HexDecode(HexEncode(octets)) == Some(octets)
    ensures NoSpace(HexEncode(octets))
  {
    if octets != [] {
      HexRoundTrip(octets[1..]);
      OneOctet(octets[0], octets[1..], HexEncode(octets[1..]));
      assert octets == [octets[0]] + octets[1..];
    }
  }

  lemma {:induction false} HexLength(octets: string)
    ensures |HexEncode(octets)| == 2 * |octets|
    ensures forall i :: 0 <= i < |HexEncode(octets)| ==> '0' <= HexEncode(octets)[i] <= '9' || 'a' <= HexEncode(octets)[i] <= 'f'
  {
    if octets != [] {
      HexLength(octets[1..]);
    }
  }

  /** Whatever text decodes is the hexadecimal of its octets, up to case. */
  lemma {:induction false} HexReadsBack(s: string)
    requires HexDecode(s).Some?
    ensures IsOctets(HexDecode(s).value) && HexEncode(HexDecode(s).value) == Lower(s)
  {
    if s != [] {
      HexReadsBack(s[2..]);
      DigitsReadBack(s[0], s[1]);
      EncodeOne(HexValue(s[0]).value * 16 + HexValue(s[1]).value, HexDecode(s[2..]).value);
      LowerTwo(s);
    }
  }

  lemma EncodeOne(n: nat, others: string)
    requires n < 256
    ensures HexEncode([n as char] + others) == [HexDigit(n / 16 % 16), HexDigit(n % 16)] + HexEncode(others)
  {
    assert ([n as char] + others)[1..] == others;
  }

  lemma LowerTwo(s: string)
    requires |s| >= 2
    ensures Lower(s) == [LowerChar(s[0]), LowerChar(s[1])] + Lower(s[2..])
  {
  }

  lemma DigitsReadBack(high: char, low: char)
    requires HexValue(high).Some? && HexValue(low).Some?
    ensures var n := HexValue(high).value * 16 + HexValue(low).value;
            n < 256 && HexDigit(n / 16 % 16) == LowerChar(high) && HexDigit(n % 16) == LowerChar(low)
  {
    DigitReadsBack(high);
    DigitReadsBack(low);
  }

  lemma DigitReadsBack(c: char)
    requires HexValue(c).Some?
    ensures HexValue(c).value < 16 && HexDigit(HexValue(c).value) == LowerChar(c)
  {
  }

  /** Two digits give their octet back, in front of the digits of the others. */
  lemma OneOctet(octet: char, others: string, rest: string)
    requires octet as int < 256 && HexDecode(rest) == Some(others) && NoSpace(rest)
    ensures var text := [HexDigit(octet as int / 16 % 16), HexDigit(octet as int % 16)] + rest;
            HexDecode(text) == Some([octet] + others) && NoSpace(text)
  {
    var n := octet as int;
    TwoDigits(n);
    PairDecodes(HexDigit(n / 16 % 16), HexDigit(n % 16), rest, others);
  }

  lemma TwoDigits(n: nat)
    requires n < 256
    ensures var high, low := HexDigit(n / 16 % 16), HexDigit(n % 16);
            && HexValue(high).Some? && HexValue(low).Some? && HexValue(high).value * 16 + HexValue(low).value == n
            && !IsSpace(high) && !IsSpace(low)
  {
    HexDigitRoundTrip(n / 16 % 16);
    HexDigitRoundTrip(n % 16);
    assert n / 16 % 16 == n / 16;
  }

  lemma PairDecodes(high: char, low: char, rest: string, others: string)
    requires HexValue(high).Some? && HexValue(low).Some? && HexValue(high).value * 16 + HexValue(low).value < 256
    requires HexDecode(rest) == Some(others) && NoSpace(rest) && !IsSpace(high) && !IsSpace(low)
    ensures var text := [high, low] + rest;
            && HexDecode(text) == Some([(HexValue(high).value * 16 + HexValue(low).value) as char] + others)
            && NoSpace(text)
  {
    assert ([high, low] + rest)[2..] == rest;
  }
}
