/** The text primitives the programs lean on: trimming, splitting, decimal
numbers and ASCII case. */
module Text {
  import opened Wrappers

  // ---------- searching ----------

  /** Position of the first `c`, or `|s|` when there is none. */
  function IndexOf(s: string, c: char): (i: nat)
    ensures i <= |s|
    ensures i < |s| ==> s[i] == c
    ensures forall j :: 0 <= j < i ==> s[j] != c
  {
    if s == [] then 0 else if s[0] == c then 0 else 1 + IndexOf(s[1..], c)
  }

  /** The first separator of `a + [c] + b` is the one after `a`, if `a` has none. */
  lemma IndexOfAfter(a: string, c: char, b: string)
    requires c !in a
    ensures IndexOf(a + [c] + b, c) == |a|
  {
    var s := a + [c] + b;
    assert s[|a|] == c;
    forall j | 0 <= j < |a| ensures s[j] != c {
      assert s[j] == a[j];
    }
  }

  lemma IndexOfAbsent(s: string, c: char)
    requires c !in s
    ensures IndexOf(s, c) == |s|
  {
  }

  /** `split_once`: the text before and after the first separator. */
  function SplitOnce(s: string, c: char): Option<(string, string)> {
    var i := IndexOf(s, c);
    if i == |s| then None else Some((s[..i], s[i + 1..]))
  }

  lemma SplitOnceAfter(a: string, c: char, b: string)
    requires c !in a
    ensures SplitOnce(a + [c] + b, c) == Some((a, b))
  {
    IndexOfAfter(a, c, b);
    assert (a + [c] + b)[..|a|] == a;
    assert (a + [c] + b)[|a| + 1..] == b;
  }

  /** `split`: the pieces between separators; never empty. */
  function Split(s: string, c: char): (pieces: seq<string>)
    ensures |pieces| >= 1
    decreases |s|
  {
    var i := IndexOf(s, c);
    if i == |s| then [s] else [s[..i]] + Split(s[i + 1..], c)
  }

  function Join(pieces: seq<string>, c: char): string {
    if pieces == [] then ""
    else if |pieces| == 1 then pieces[0]
    else pieces[0] + [c] + Join(pieces[1..], c)
  }

  lemma SplitCons(first: string, c: char, rest: string)
    requires c !in first
    ensures Split(first + [c] + rest, c) == [first] + Split(rest, c)
  {
    IndexOfAfter(first, c, rest);
    var s := first + [c] + rest;
    assert s[..|first|] == first;
    assert s[|first| + 1..] == rest;
  }

  /** Splitting undoes joining when no piece holds the separator. */
  lemma {:induction false} SplitJoin(pieces: seq<string>, c: char)
    requires pieces != []
    requires forall i :: 0 <= i < |pieces| ==> c !in pieces[i]
    ensures Split(Join(pieces, c), c) == pieces
  {
    if |pieces| == 1 {
      IndexOfAbsent(pieces[0], c);
    } else {
      SplitJoin(pieces[1..], c);
      SplitCons(pieces[0], c, Join(pieces[1..], c));
      assert pieces == [pieces[0]] + pieces[1..];
    }
  }

  /** A text every character of which satisfies the class of `ok`. */
  lemma {:induction false} JoinIn(pieces: seq<string>, c: char, ok: set<char>)
    requires c in ok
    requires forall i, j :: 0 <= i < |pieces| && 0 <= j < |pieces[i]| ==> pieces[i][j] in ok
    ensures forall j :: 0 <= j < |Join(pieces, c)| ==> Join(pieces, c)[j] in ok
  {
    if |pieces| > 1 {
      JoinIn(pieces[1..], c, ok);
    }
  }

  // ---------- white space ----------

  predicate IsSpace(c: char) {
    c == ' ' || '\t' <= c <= '\r'
  }

  ghost predicate NoSpace(s: string) {
    forall i :: 0 <= i < |s| ==> !IsSpace(s[i])
  }

  function TrimStart(s: string): string {
    if s != [] && IsSpace(s[0]) then TrimStart(s[1..]) else s
  }

  function TrimEnd(s: string): string {
    if s != [] && IsSpace(s[|s| - 1]) then TrimEnd(s[..|s| - 1]) else s
  }

  function Trim(s: string): string {
    TrimEnd(TrimStart(s))
  }

  lemma TrimNothing(s: string)
    requires NoSpace(s)
    ensures Trim(s) == s
  {
  }

  /** Number of leading characters that are not white space. */
  function WordLength(s: string): (n: nat)
    ensures n <= |s|
    ensures NoSpace(s[..n])
    ensures n < |s| ==> IsSpace(s[n])
  {
    if s == [] || IsSpace(s[0]) then 0
    else
      var n := 1 + WordLength(s[1..]);
      assert s[..n] == [s[0]] + s[1..][..n - 1];
      n
  }

  /** `split_whitespace`: the maximal runs of non-space characters, in order. */
  function Words(s: string): seq<string>
    decreases |s|
  {
    if s == [] then []
    else if IsSpace(s[0]) then Words(s[1..])
    else
      var n := WordLength(s);
      [s[..n]] + Words(s[n..])
  }

  lemma WordLengthAfter(w: string, rest: string)
    requires NoSpace(w)
    requires rest == [] || IsSpace(rest[0])
    ensures WordLength(w + rest) == |w|
  {
    var s := w + rest;
    var n := WordLength(s);
    forall j | 0 <= j < |w| ensures !IsSpace(s[j]) {
      assert s[j] == w[j];
    }
    if |w| < |s| {
      assert IsSpace(s[|w|]);
      assert forall j :: 0 <= j < n ==> s[j] == s[..n][j];
    }
  }

  /** A word in front of white space is the first word. */
  lemma WordsCons(w: string, rest: string)
    requires w != [] && NoSpace(w)
    requires rest == [] || IsSpace(rest[0])
    ensures Words(w + rest) == [w] + Words(rest)
  {
    WordLengthAfter(w, rest);
    assert (w + rest)[..|w|] == w && (w + rest)[|w|..] == rest;
    assert (w + rest)[0] == w[0];
  }

  // ---------- decimal numbers ----------

  predicate IsDigit(c: char) {
    '0' <= c <= '9'
  }

  function DigitValue(c: char): (d: nat)
    requires IsDigit(c)
  {
    c as int - '0' as int
  }

  /** `to_string` of an unsigned number. */
  function Dec(n: nat): (s: string)
    ensures s != []
    ensures forall i :: 0 <= i < |s| ==> IsDigit(s[i])
  {
    if n < 10 then ['0' + n as char] else Dec(n / 10) + ['0' + (n % 10) as char]
  }

  function DigitsValue(s: string): nat
    requires forall i :: 0 <= i < |s| ==> IsDigit(s[i])
  {
    if s == [] then 0 else DigitsValue(s[..|s| - 1]) * 10 + DigitValue(s[|s| - 1])
  }

  /** `str::parse` for an unsigned type with greatest value `max`: an optional
  plus sign, then at least one digit, and no overflow. */
  function ParseUint(s: string, max: nat): (n: Option<nat>)
    ensures n.Some? ==> n.value <= max
  {
    var digits := if s != [] && s[0] == '+' then s[1..] else s;
    if digits == [] then None
    else if exists i :: 0 <= i < |digits| && !IsDigit(digits[i]) then None
    else if DigitsValue(digits) > max then None
    else Some(DigitsValue(digits))
  }

  lemma {:induction false} DigitsOfDec(n: nat)
    ensures DigitsValue(Dec(n)) == n
  {
    if n < 10 {
      assert Dec(n)[..0] == [];
    } else {
      DigitsOfDec(n / 10);
      var s := Dec(n);
      assert s[..|s| - 1] == Dec(n / 10);
    }
  }

  /** Parsing undoes printing, for every value of the type. */
  lemma ParseDec(n: nat, max: nat)
    requires n <= max
    ensures ParseUint(Dec(n), max) == Some(n)
  {
    assert IsDigit(Dec(n)[0]);
    DigitsOfDec(n);
  }

  lemma DecInjective(a: nat, b: nat)
    requires Dec(a) == Dec(b)
    ensures a == b
  {
    DigitsOfDec(a);
    DigitsOfDec(b);
  }

  lemma DecPlain(n: nat)
    ensures NoSpace(Dec(n))
    ensures ':' !in Dec(n) && ',' !in Dec(n) && '|' !in Dec(n) && '=' !in Dec(n) && '\n' !in Dec(n)
  {
    forall i | 0 <= i < |Dec(n)|
      ensures !IsSpace(Dec(n)[i]) && Dec(n)[i] !in {':', ',', '|', '=', '\n'}
    {
      assert IsDigit(Dec(n)[i]);
    }
  }

  // ---------- ASCII case ----------

  function LowerChar(c: char): char {
    if 'A' <= c <= 'Z' then ((c as int) + 32) as char else c
  }

  /** `to_ascii_lowercase`. */
  function Lower(s: string): (r: string)
    ensures |r| == |s|
    ensures forall i :: 0 <= i < |s| ==> r[i] == LowerChar(s[i])
  {
    seq(|s|, i requires 0 <= i < |s| => LowerChar(s[i]))
  }

  /** `eq_ignore_ascii_case`. */
  predicate SameIgnoringCase(a: string, b: string) {
    |a| == |b| && forall i :: 0 <= i < |a| ==> LowerChar(a[i]) == LowerChar(b[i])
  }

  lemma SameIgnoringCaseIffLowerEqual(a: string, b: string)
    ensures SameIgnoringCase(a, b) <==> Lower(a) == Lower(b)
  {
    if Lower(a) == Lower(b) {
      forall i | 0 <= i < |a| ensures LowerChar(a[i]) == LowerChar(b[i]) {
        assert Lower(a)[i] == Lower(b)[i];
      }
    }
  }

  lemma LowerIdempotent(s: string)
    ensures Lower(Lower(s)) == Lower(s)
  {
  }
}
