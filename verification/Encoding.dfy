/** A text for every list of texts, one that can be read back and holds no white
space. With it the laws that other modules assume of JSON, archives and ciphers
are shown to be met by something. */
module Encoding {
  import opened Wrappers
  import opened Text

  function Visible(c: char): char {
    if IsSpace(c) then (c as int + 128) as char else c
  }

  /** Every character in three, then an end mark. */
  function Spelled(s: string): string {
    if s == [] then ['e'] else ['c', if IsSpace(s[0]) then 's' else 'v', Visible(s[0])] + Spelled(s[1..])
  }

  function Listed(texts: seq<string>): string {
    if texts == [] then ['.'] else [','] + Spelled(texts[0]) + Listed(texts[1..])
  }

  lemma {:induction false} SpelledInjective(a: string, x: string, b: string, y: string)
    requires Spelled(a) + x == Spelled(b) + y
    ensures a == b && x == y
  {
    var s, t := Spelled(a) + x, Spelled(b) + y;
    assert s[0] == Spelled(a)[0] && t[0] == Spelled(b)[0];
    if a == [] || b == [] {
      assert s[1..] == x && t[1..] == y;
    } else {
      assert s[1] == Spelled(a)[1] && t[1] == Spelled(b)[1];
      assert s[2] == Visible(a[0]) && t[2] == Visible(b[0]);
      assert s[3..] == Spelled(a[1..]) + x && t[3..] == Spelled(b[1..]) + y;
      SpelledInjective(a[1..], x, b[1..], y);
      assert a == [a[0]] + a[1..] && b == [b[0]] + b[1..];
    }
  }

  lemma {:induction false} ListedInjective(a: seq<string>, b: seq<string>)
    ensures Listed(a) == Listed(b) <==> a == b
  {
    if Listed(a) == Listed(b) {
      ListedStarts(a);
      ListedStarts(b);
      if a != [] && b != [] {
        SpelledInjective(a[0], Listed(a[1..]), b[0], Listed(b[1..]));
        ListedInjective(a[1..], b[1..]);
        SameByParts(a, b);
      }
    }
  }

  lemma ListedStarts(texts: seq<string>)
    ensures Listed(texts) != [] && (Listed(texts)[0] == '.' <==> texts == [])
    ensures texts != [] ==> Listed(texts)[1..] == Spelled(texts[0]) + Listed(texts[1..])
  {
  }

  lemma SameByParts<T>(a: seq<T>, b: seq<T>)
    requires a != [] && b != [] && a[0] == b[0] && a[1..] == b[1..]
    ensures a == b
  {
    assert a == [a[0]] + a[1..] && b == [b[0]] + b[1..];
  }

  lemma {:induction false} SpelledPlain(s: string)
    ensures NoSpace(Spelled(s)) && |Spelled(s)| == 3 * |s| + 1
  {
    if s != [] {
      SpelledPlain(s[1..]);
    }
  }

  /** The length of `Listed`. */
  function ListedSize(texts: seq<string>): nat {
    if texts == [] then 1 else 3 * |texts[0]| + 2 + ListedSize(texts[1..])
  }

  lemma {:induction false} ListedPlain(texts: seq<string>)
    ensures NoSpace(Listed(texts)) && |Listed(texts)| == ListedSize(texts)
  {
    if texts != [] {
      SpelledPlain(texts[0]);
      ListedPlain(texts[1..]);
    }
  }

  /** The texts that `code` lists. */
  ghost function ReadList(code: string): (texts: Option<seq<string>>)
    ensures texts.Some? ==> Listed(texts.value) == code
  {
    if exists t :: Listed(t) == code then
      var t :| Listed(t) == code;
      Some(t)
    else None
  }

  lemma ReadListed(texts: seq<string>)
    ensures ReadList(Listed(texts)) == Some(texts)
  {
    ListedInjective(ReadList(Listed(texts)).value, texts);
  }

  /** The members of a set, in some order that depends on the set alone. */
  ghost function Members(s: set<string>): (r: seq<string>)
    ensures forall x :: x in r <==> x in s
  {
    if s == {} then []
    else
      var x :| x in s;
      [x] + Members(s - {x})
  }

  // ---------- a cipher ----------

  /** Key, nonce and plaintext, for all to see. */
  function SealOpenly(key: string, nonce: string, plain: string): string {
    Listed([key, nonce, plain])
  }

  ghost function UnsealOpenly(key: string, nonce: string, sealed: string): Option<string> {
    match ReadList(sealed)
    case None => None
    case Some(texts) => if |texts| == 3 && texts[0] == key then Some(texts[2]) else None
  }

  /** It reads back under its own key and under no other. */
  lemma OpenCipherLaws(key: string, nonce: string, plain: string, key': string)
    ensures UnsealOpenly(key, nonce, SealOpenly(key, nonce, plain)) == Some(plain)
    ensures UnsealOpenly(key', nonce, SealOpenly(key, nonce, plain)).Some? ==> key' == key
  {
    ReadListed([key, nonce, plain]);
  }
}
