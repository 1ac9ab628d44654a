/** Frames on a live stream: the codec, and the reader that finds the next frame
by scanning for the magic octet by octet. */
module Protocol {
  import opened Wrappers
  import opened Octets

  const MAGIC: string := "\U{89}I2P"
  const PROTOCOL_VERSION: nat := 3
  const MAX_FRAME: nat := 256 * 1024

  datatype MsgType = U | D | I | S | F | C | E | K | P | O | X | L | Q | Y | J | G | Z

  function AsU8(t: MsgType): char {
    match t
    case U => 'U' case D => 'D' case I => 'I' case S => 'S' case F => 'F' case C => 'C'
    case E => 'E' case K => 'K' case P => 'P' case O => 'O' case X => 'X' case L => 'L'
    case Q => 'Q' case Y => 'Y' case J => 'J' case G => 'G' case Z => 'Z'
  }

  function FromU8(c: char): Option<MsgType> {
    match c
    case 'U' => Some(U) case 'D' => Some(D) case 'I' => Some(I) case 'S' => Some(S)
    case 'F' => Some(F) case 'C' => Some(C) case 'E' => Some(E) case 'K' => Some(K)
    case 'P' => Some(P) case 'O' => Some(O) case 'X' => Some(X) case 'L' => Some(L)
    case 'Q' => Some(Q) case 'Y' => Some(Y) case 'J' => Some(J) case 'G' => Some(G)
    case 'Z' => Some(Z)
    case _ => None
  }

  lemma TypeByteBijective(t: MsgType, c: char)
    ensures FromU8(c) == Some(t) <==> AsU8(t) == c
  {
  }

  /** `msgId` is a 64-bit number: see `IsFrame`. */
  datatype Frame = Frame(msgType: MsgType, msgId: nat, payload: string)

  datatype ProtocolError =
    | Io | TooShort | InvalidMagic | InvalidVersion(version: nat)
    | UnknownType(octet: char) | InvalidSize(size: nat) | LengthMismatch

  // ---------- codec ----------

  /** Everything between the magic and the payload. */
  function Header(f: Frame): (h: string)
    ensures |h| == 14
  {
    [PROTOCOL_VERSION as char, AsU8(f.msgType)] + BigEndian(f.msgId, 8) + BigEndian(|f.payload|, 4)
  }

  function Wire(f: Frame): string {
    MAGIC + (Header(f) + f.payload)
  }

  predicate Sendable(f: Frame) {
    |f.payload| <= MAX_FRAME
  }

  /** A frame of the program, short enough to be sent. */
  ghost predicate IsFrame(f: Frame) {
    Sendable(f) && f.msgId <= U64_MAX
  }

  method Encode(f: Frame) returns (out: Result<string, ProtocolError>)
    ensures out == if Sendable(f) then Ok(Wire(f)) else Err(InvalidSize(|f.payload|))
  {
    if |f.payload| > MAX_FRAME {
      return Err(InvalidSize(|f.payload|));
    }
    var octets := MAGIC;
    octets := octets + [PROTOCOL_VERSION as char];
    octets := octets + [AsU8(f.msgType)];
    octets := octets + BigEndian(f.msgId, 8);
    octets := octets + BigEndian(|f.payload|, 4);
    assert octets == MAGIC + Header(f);
    octets := octets + f.payload;
    assert octets == Wire(f);
    out := Ok(octets);
  }

  /** The 14 octets after the magic, or why they are refused. */
  function ParseHeader(h: string): Result<(MsgType, nat, nat), ProtocolError>
    requires |h| == 14
  {
    if h[0] as nat != PROTOCOL_VERSION then Err(InvalidVersion(h[0] as nat))
    else if FromU8(h[1]).None? then Err(UnknownType(h[1]))
    else
      var length := FromBigEndian(h[10..14]);
      var msgId := FromBigEndian(h[2..10]);
      if length > MAX_FRAME then Err(InvalidSize(length))
      else Ok((FromU8(h[1]).value, msgId, length))
  }

  function Decode(frame: string): Result<Frame, ProtocolError> {
    if |frame| < 18 then Err(TooShort)
    else if frame[..4] != MAGIC then Err(InvalidMagic)
    else
      match ParseHeader(frame[4..18])
      case Err(e) => Err(e)
      case Ok((msgType, msgId, length)) =>
        if |frame| != 18 + length then Err(LengthMismatch)
        else Ok(Frame(msgType, msgId, frame[18..]))
  }

  lemma HeaderRoundTrip(f: Frame)
    requires IsFrame(f)
    ensures ParseHeader(Header(f)) == Ok((f.msgType, f.msgId, |f.payload|))
  {
    var h := Header(f);
    assert h[2..10] == BigEndian(f.msgId, 8);
    assert h[10..14] == BigEndian(|f.payload|, 4);
    RadixValues();
    BigEndianRoundTrip(f.msgId, 8);
    BigEndianRoundTrip(|f.payload|, 4);
    TypeByteBijective(f.msgType, h[1]);
  }

  /** Decoding undoes encoding. */
  lemma DecodeEncode(f: Frame)
    requires IsFrame(f)
    ensures Decode(Wire(f)) == Ok(f)
  {
    var w := Wire(f);
    assert w[4..18] == Header(f);
    assert w[18..] == f.payload;
    HeaderRoundTrip(f);
  }

  /** Whatever is accepted is the one encoding of what it decodes to. */
  lemma EncodeDecode(octets: string)
    requires IsOctets(octets)
    requires Decode(octets).Ok?
    ensures IsFrame(Decode(octets).value) && Wire(Decode(octets).value) == octets
  {
    var f := Decode(octets).value;
    var h := octets[4..18];
    assert forall i :: 0 <= i < 14 ==> h[i] == octets[i + 4];
    AcceptedHeader(h);
    assert Header(f) == h;
    assert octets == octets[..4] + (h + octets[18..]);
  }

  lemma AcceptedHeader(h: string)
    requires |h| == 14 && IsOctets(h) && ParseHeader(h).Ok?
    ensures var (msgType, msgId, length) := ParseHeader(h).value;
            && msgId <= U64_MAX && length <= MAX_FRAME
            && h == [PROTOCOL_VERSION as char, AsU8(msgType)] + BigEndian(msgId, 8) + BigEndian(length, 4)
  {
    HeaderReadsBack(h);
    TypeByteBijective(ParseHeader(h).value.0, h[1]);
  }

  lemma HeaderReadsBack(h: string)
    requires |h| == 14 && IsOctets(h)
    ensures h == [h[0], h[1]] + BigEndian(FromBigEndian(h[2..10]), 8) + BigEndian(FromBigEndian(h[10..14]), 4)
    ensures FromBigEndian(h[2..10]) <= U64_MAX
  {
    RadixValues();
    FromBigEndianRoundTrip(h[2..10]);
    FromBigEndianRoundTrip(h[10..14]);
    assert h == [h[0], h[1]] + h[2..10] + h[10..14];
  }

  /** Why a header is refused: another version; a type octet that stands for no
  type; or a size above the limit, in this order. */
  lemma HeaderRefusedIff(h: string)
    requires |h| == 14
    ensures ParseHeader(h).Err? <==>
              h[0] as nat != 3 || (forall t: MsgType :: AsU8(t) != h[1]) || FromBigEndian(h[10..14]) > MAX_FRAME
    ensures ParseHeader(h) == Err(InvalidVersion(h[0] as nat)) <==> h[0] as nat != 3
    ensures ParseHeader(h) == Err(UnknownType(h[1])) <==> h[0] as nat == 3 && (forall t: MsgType :: AsU8(t) != h[1])
    ensures ParseHeader(h) == Err(InvalidSize(FromBigEndian(h[10..14]))) <==>
              h[0] as nat == 3 && (exists t: MsgType :: AsU8(t) == h[1]) && FromBigEndian(h[10..14]) > MAX_FRAME
  {
    forall t: MsgType ensures FromU8(h[1]) == Some(t) <==> AsU8(t) == h[1] {
      TypeByteBijective(t, h[1]);
    }
    if FromU8(h[1]).Some? {
      assert AsU8(FromU8(h[1]).value) == h[1];
    }
  }

  /** And why octets are: too few, not the magic, a refused header, or not as long as
  the header says. */
  lemma DecodeRefusedIff(octets: string)
    ensures Decode(octets) == Err(TooShort) <==> |octets| < 18
    ensures Decode(octets) == Err(InvalidMagic) <==> |octets| >= 18 && !MagicAt(octets, 0)
    ensures |octets| >= 18 && MagicAt(octets, 0) && ParseHeader(octets[4..18]).Err? ==>
              Decode(octets) == Err(ParseHeader(octets[4..18]).error)
    ensures Decode(octets) == Err(LengthMismatch) <==>
              && |octets| >= 18 && MagicAt(octets, 0) && ParseHeader(octets[4..18]).Ok?
              && |octets| != 18 + FromBigEndian(octets[14..18])
  {
    if |octets| >= 18 {
      assert octets[0..4] == octets[..4];
      assert octets[4..18][10..14] == octets[14..18];
    }
  }

  // ---------- finding the magic ----------

  predicate MagicAt(s: string, i: nat) {
    i + 4 <= |s| && s[i..i + 4] == MAGIC
  }

  ghost predicate NoMagic(s: string) {
    forall i: nat :: !MagicAt(s, i)
  }

  /** The first place the magic occurs. */
  function FindMagic(s: string): (at: Option<nat>)
    ensures at.Some? ==> MagicAt(s, at.value) && forall j: nat :: j < at.value ==> !MagicAt(s, j)
    ensures at.None? ==> NoMagic(s)
  {
    if |s| < 4 then None
    else if MagicAt(s, 0) then Some(0)
    else
      assert forall j: nat :: j > 0 ==> MagicAt(s, j) == MagicAt(s[1..], j - 1) by {
        forall j: nat | j > 0 ensures MagicAt(s, j) == MagicAt(s[1..], j - 1) {
          if j + 4 <= |s| {
            assert s[1..][j - 1..j + 3] == s[j..j + 4];
          }
        }
      }
      match FindMagic(s[1..])
      case None => None
      case Some(i) => Some(i + 1)
  }

  /** One call of the stream reader on the octets up to end of file: the frame
  or the error, and the octets not taken. */
  function ReadFrame(s: string): (r: (Result<Frame, ProtocolError>, string))
    ensures r.0.Ok? ==> |r.1| < |s|
  {
    match FindMagic(s)
    case None => (Err(Io), [])
    case Some(i) => ReadBody(s[i + 4..])
  }

  function ReadBody(s: string): (r: (Result<Frame, ProtocolError>, string))
    ensures |r.1| <= |s|
  {
    if |s| < 14 then (Err(Io), [])
    else
      match ParseHeader(s[..14])
      case Err(e) => (Err(e), s[14..])
      case Ok((msgType, msgId, length)) =>
        if |s| < 14 + length then (Err(Io), [])
        else (Ok(Frame(msgType, msgId, s[14..14 + length])), s[14 + length..])
  }

  /** The magic overlaps no shifted copy of itself, so junk without a magic in it
  cannot complete one with what follows. */
  lemma MagicAfterJunk(junk: string, rest: string)
    requires NoMagic(junk)
    ensures FindMagic(junk + (MAGIC + rest)) == Some(|junk|)
  {
    var s := junk + (MAGIC + rest);
    MagicThere(junk, rest);
    forall i: nat | i < |junk| ensures !MagicAt(s, i) {
      NoEarlierMagic(junk, rest, i);
    }
    FirstMagicIs(s, |junk|);
  }

  lemma MagicThere(junk: string, rest: string)
    ensures MagicAt(junk + (MAGIC + rest), |junk|)
  {
    var s := junk + (MAGIC + rest);
    assert s[|junk|..|junk| + 4] == MAGIC;
  }

  lemma FirstMagicIs(s: string, i: nat)
    requires MagicAt(s, i) && forall j: nat :: j < i ==> !MagicAt(s, j)
    ensures FindMagic(s) == Some(i)
  {
  }

  lemma NoEarlierMagic(junk: string, rest: string, i: nat)
    requires NoMagic(junk) && i < |junk|
    ensures !MagicAt(junk + (MAGIC + rest), i)
  {
    var s := junk + (MAGIC + rest);
    if i + 4 <= |junk| {
      assert s[i..i + 4] == junk[i..i + 4];
      assert !MagicAt(junk, i);
    } else if i + 4 <= |s| {
      var shift := |junk| - i;
      assert s[i..i + 4][shift] == s[|junk|] == MAGIC[0];
      assert MAGIC[0] != MAGIC[1] && MAGIC[0] != MAGIC[2] && MAGIC[0] != MAGIC[3];
    }
  }

  /** Resynchronisation: after junk that holds no magic the reader returns the
  next frame and leaves exactly what follows it. */
  lemma ReadsPastJunk(junk: string, f: Frame, rest: string)
    requires NoMagic(junk) && IsFrame(f)
    ensures ReadFrame(junk + (Wire(f) + rest)) == (Ok(f), rest)
  {
    var body := Header(f) + f.payload + rest;
    assert Wire(f) + rest == MAGIC + body;
    MagicAfterJunk(junk, body);
    assert (junk + (MAGIC + body))[|junk| + 4..] == body;
    ReadsBody(f, rest);
  }

  lemma ReadsBody(f: Frame, rest: string)
    requires IsFrame(f)
    ensures ReadBody(Header(f) + f.payload + rest) == (Ok(f), rest)
  {
    var body := Header(f) + f.payload + rest;
    HeaderRoundTrip(f);
    assert body[..14] == Header(f);
    assert body[14..14 + |f.payload|] == f.payload;
    assert body[14 + |f.payload|..] == rest;
  }

  lemma MagicIgnoresLater(s: string, later: string)
    requires FindMagic(s).Some?
    ensures FindMagic(s + later) == FindMagic(s)
  {
    var i, t := FindMagic(s).value, s + later;
    assert t[i..i + 4] == s[i..i + 4];
    forall j: nat | j < i ensures !MagicAt(t, j) {
      assert t[j..j + 4] == s[j..j + 4];
      assert !MagicAt(s, j);
    }
    FirstMagicIs(t, i);
  }

  /** More octets behind a frame change nothing but what is left over. */
  lemma ReadIgnoresLater(s: string, later: string)
    requires ReadFrame(s).0.Ok?
    ensures ReadFrame(s + later) == (ReadFrame(s).0, ReadFrame(s).1 + later)
  {
    var i := FindMagic(s).value;
    MagicIgnoresLater(s, later);
    BodyIgnoresLater(s[i + 4..], later);
    DropOfConcat(s, later, i + 4);
  }

  lemma DropOfConcat(s: string, later: string, k: nat)
    requires k <= |s|
    ensures (s + later)[k..] == s[k..] + later
  {
  }

  lemma BodyIgnoresLater(s: string, later: string)
    requires ReadBody(s).0.Ok?
    ensures ReadBody(s + later) == (ReadBody(s).0, ReadBody(s).1 + later)
  {
    assert (s + later)[..14] == s[..14];
    var length := ParseHeader(s[..14]).value.2;
    assert (s + later)[14..14 + length] == s[14..14 + length];
    assert (s + later)[14 + length..] == s[14 + length..] + later;
  }

  /** On octets that start with the magic, the codec accepts exactly what the
  stream reader takes without leftovers. */
  lemma DecodeIffReadWhole(octets: string, f: Frame)
    requires MagicAt(octets, 0)
    ensures Decode(octets) == Ok(f) <==> ReadFrame(octets) == (Ok(f), [])
  {
    assert FindMagic(octets) == Some(0);
    var body := octets[4..];
    if |octets| >= 18 {
      assert body[..14] == octets[4..18];
      assert octets[..4] == octets[0..4];
      if ParseHeader(octets[4..18]).Ok? {
        var length := ParseHeader(octets[4..18]).value.2;
        if |octets| == 18 + length {
          assert body[14..14 + length] == octets[18..];
        }
      }
    }
  }

  // ---------- whole streams ----------

  datatype Item = Item(junk: string, frame: Frame)

  function StreamOf(items: seq<Item>): string {
    if items == [] then [] else items[0].junk + (Wire(items[0].frame) + StreamOf(items[1..]))
  }

  function FramesOf(items: seq<Item>): seq<Frame> {
    seq(|items|, i requires 0 <= i < |items| => items[i].frame)
  }

  /** Every frame the reader returns before its first error. */
  function ReadAll(s: string): seq<Frame>
    decreases |s|
  {
    var (r, rest) := ReadFrame(s);
    if r.Ok? then [r.value] + ReadAll(rest) else []
  }

  lemma FirstItem(items: seq<Item>, tail: string)
    requires items != [] && NoMagic(items[0].junk) && IsFrame(items[0].frame)
    ensures ReadFrame(StreamOf(items) + tail) == (Ok(items[0].frame), StreamOf(items[1..]) + tail)
  {
    var rest := StreamOf(items[1..]);
    Regroup(items[0].junk, Wire(items[0].frame), rest, tail);
    ReadsPastJunk(items[0].junk, items[0].frame, rest + tail);
  }

  lemma ReadAllStep(s: string, f: Frame, rest: string)
    requires ReadFrame(s) == (Ok(f), rest)
    ensures ReadAll(s) == [f] + ReadAll(rest)
  {
  }

  lemma FramesOfCons(items: seq<Item>)
    requires items != []
    ensures FramesOf(items) == [items[0].frame] + FramesOf(items[1..])
  {
  }

  lemma Regroup(a: string, b: string, c: string, d: string)
    ensures a + (b + c) + d == a + (b + (c + d))
  {
  }

  /** Any run of junk-separated frames is read back in order. */
  lemma {:induction false} ReadsEveryFrame(items: seq<Item>, tail: string)
    requires NoMagic(tail)
    requires forall i :: 0 <= i < |items| ==> NoMagic(items[i].junk) && IsFrame(items[i].frame)
    ensures ReadAll(StreamOf(items) + tail) == FramesOf(items)
  {
    if items == [] {
      assert StreamOf(items) + tail == tail;
      assert FindMagic(tail).None?;
    } else {
      var rest := StreamOf(items[1..]) + tail;
      FirstItem(items, tail);
      ReadsEveryFrame(items[1..], tail);
      ReadAllStep(StreamOf(items) + tail, items[0].frame, rest);
      FramesOfCons(items);
    }
  }

  // ---------- the running reader ----------

  /** No magic ends within the first `taken` octets. */
  ghost predicate NoMagicBefore(s: string, taken: nat) {
    forall j: nat :: j + 4 <= taken ==> !MagicAt(s, j)
  }

  /** One octet more in the buffer, and its last four. */
  lemma PushOne(s: string, taken: nat, buffer: string, one: string)
    requires |buffer| <= taken < |s| && buffer == s[taken - |buffer|..taken] && one == s[taken..][..1]
    ensures var longer := buffer + one;
            && |longer| == |buffer| + 1 && longer == s[taken - |buffer|..taken + 1] && s[taken..][1..] == s[taken + 1..]
            && (|longer| >= 4 ==> longer[|longer| - 4..] == s[taken - 3..taken + 1])
  {
  }

  lemma ScanGoesOn(s: string, taken: nat)
    requires 0 < taken <= |s| && NoMagicBefore(s, taken - 1)
    requires taken >= 4 ==> s[taken - 4..taken] != MAGIC
    ensures NoMagicBefore(s, taken)
  {
  }

  lemma ScanFinds(s: string, taken: nat)
    requires 4 <= taken <= |s| && NoMagicBefore(s, taken - 1)
    requires s[taken - 4..taken] == MAGIC
    ensures FindMagic(s) == Some(taken - 4)
  {
    assert MagicAt(s, taken - 4);
    forall j: nat | j < taken - 4 ensures !MagicAt(s, j) {
      assert j + 4 <= taken - 1;
    }
    FirstMagicIs(s, taken - 4);
  }

  lemma ScanEnds(s: string, taken: nat)
    requires taken == |s| && NoMagicBefore(s, taken)
    ensures FindMagic(s) == None
  {
  }

  lemma SliceTwice(s: string, a: nat, n: nat)
    requires a + n <= |s|
    ensures s[a..][..n] == s[a..a + n] && s[a..][n..] == s[a + n..]
  {
  }

  /** An octet source; `rest` is everything still to come. */
  class Reader {
    var rest: string

    constructor (octets: string)
      ensures rest == octets
    {
      rest := octets;
    }

    /** `read_exact`: all `n` octets, or end of file. */
    method ReadExact(n: nat) returns (got: Option<string>)
      modifies this
      ensures |old(rest)| >= n ==> got == Some(old(rest)[..n]) && rest == old(rest)[n..]
      ensures |old(rest)| < n ==> got == None && rest == []
    {
      if |rest| < n {
        rest := [];
        return None;
      }
      got := Some(rest[..n]);
      rest := rest[n..];
    }

    /** Push one octet at a time, stop at the magic, keep at most four octets. */
    method SkipPastMagic() returns (found: bool)
      modifies this
      ensures found <==> FindMagic(old(rest)).Some?
      ensures found ==> rest == old(rest)[FindMagic(old(rest)).value + 4..]
      ensures !found ==> rest == []
    {
      var buffer := [];
      ghost var s, taken := rest, 0;
      while true
        invariant 0 <= taken <= |s| && rest == s[taken..]
        invariant |buffer| == (if taken < 4 then taken else 4)
        invariant buffer == s[taken - |buffer|..taken]
        invariant NoMagicBefore(s, taken)
        decreases |rest|
      {
        var one := ReadExact(1);
        if one.None? {
          ScanEnds(s, taken);
          return false;
        }
        PushOne(s, taken, buffer, one.value);
        buffer := buffer + one.value;
        taken := taken + 1;
        if |buffer| >= 4 && buffer[|buffer| - 4..] == MAGIC {
          ScanFinds(s, taken);
          return true;
        }
        ScanGoesOn(s, taken);
        if |buffer| > 4 {
          buffer := buffer[|buffer| - 4..];
        }
      }
    }

    method ReadFrom() returns (frame: Result<Frame, ProtocolError>)
      modifies this
      ensures (frame, rest) == ReadFrame(old(rest))
    {
      var found := SkipPastMagic();
      if !found {
        return Err(Io);
      }
      frame := ReadAfterMagic();
    }

    method ReadAfterMagic() returns (frame: Result<Frame, ProtocolError>)
      modifies this
      ensures (frame, rest) == ReadBody(old(rest))
    {
      ghost var s := rest;
      var header := ReadExact(14);
      if header.None? {
        return Err(Io);
      }
      var parsed := ParseHeader(header.value);
      if parsed.Err? {
        return Err(parsed.error);
      }
      var payload := ReadExact(parsed.value.2);
      if payload.None? {
        return Err(Io);
      }
      SliceTwice(s, 14, parsed.value.2);
      frame := Ok(Frame(parsed.value.0, parsed.value.1, payload.value));
    }
  }
}
