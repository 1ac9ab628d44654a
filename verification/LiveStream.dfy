/** A live connection: the line read before hand-over, then frames delivered in
fragments to a reader task that feeds a queue.

Frames of the peer are written whole (one writer holds the lock at a time). */
module LiveStream {
  import opened Wrappers
  import opened Text
  import opened Protocol

  // ---------- the line before hand-over ----------

  /** What one wait of 50 ms for more octets can give; a chunk is never empty,
  and the list of polls ends at end of file. */
  datatype Poll = Timeout | Failed | Chunk(octets: string)

  datatype LineError = Cancelled | EndOfFile | ReadFailed | NotText

  /** A front of the polls has been waited for; none of them failed, or the last. */
  ghost predicate WaitedFor(all: seq<Poll>, polls: seq<Poll>, failed: bool) {
    && |polls| <= |all| && polls == all[|all| - |polls|..]
    && if failed then |polls| < |all| && all[|all| - |polls| - 1] == Failed else Failed !in all[..|all| - |polls|]
  }

  /** Before every wait it was looked whether someone had cancelled; nobody had, or
  only before a last one that was not begun. */
  ghost predicate LookedFor(cancelled: nat -> bool, turns: nat, waits: int, stopped: bool) {
    NoneBefore(cancelled, turns, waits) && if stopped then cancelled(turns) else turns > 0
  }

  ghost predicate NoneBefore(cancelled: nat -> bool, turns: nat, waits: int) {
    waits <= turns && forall k: nat :: k < turns ==> !cancelled(k)
  }

  lemma NoneYet(cancelled: nat -> bool, turns: nat, waits: int)
    requires NoneBefore(cancelled, turns, waits) && !cancelled(turns)
    ensures NoneBefore(cancelled, turns + 1, waits + 1)
  {
  }

  lemma OneWait(all: seq<Poll>, before: seq<Poll>, after: seq<Poll>, poll: Poll)
    requires WaitedFor(all, before, false)
    requires (after == before && poll != Failed) || (before != [] && after == before[1..] && poll == before[0])
    ensures WaitedFor(all, after, poll == Failed)
  {
    if after != before {
      assert all[..|all| - |after|] == all[..|all| - |before|] + [poll];
    }
  }

  function Coming(polls: seq<Poll>): string {
    if polls == [] then []
    else (if polls[0].Chunk? then polls[0].octets else []) + Coming(polls[1..])
  }

  /** The text before the first newline, and what is left behind it. */
  ghost predicate LineTaken(all: string, text: string, rest: string) {
    var i := IndexOf(all, '\n');
    i < |all| && text == all[..i] && rest == all[i + 1..]
  }

  /** A buffered reader: octets already buffered and polls still to come. */
  class BufferedSource {
    var buffer: string
    var polls: seq<Poll>

    constructor (polls: seq<Poll>)
      requires Chunk([]) !in polls
      ensures Valid() && Everything() == Coming(polls) && this.polls == polls && buffer == []
    {
      this.buffer, this.polls := [], polls;
    }

    ghost predicate Valid()
      reads this
    {
      Chunk([]) !in polls
    }

    ghost function Everything(): string
      reads this
    {
      buffer + Coming(polls)
    }

    /** `fill_buf` under a timeout: the buffered octets, else the next poll. */
    method FillBuffer() returns (poll: Poll)
      requires Valid()
      modifies this
      ensures Valid() && Everything() == old(Everything())
      ensures poll == Chunk(buffer) || (poll != Chunk([]) && !poll.Chunk? && poll in old(polls))
      ensures poll == Chunk([]) ==> polls == [] && old(buffer) == []
      ensures polls == old(polls) || (old(polls) != [] && polls == old(polls)[1..] && poll == old(polls)[0])
      ensures !poll.Chunk? ==> polls != old(polls)
    {
      if buffer == [] && polls != [] {
        poll := polls[0];
        polls := polls[1..];
        if poll.Chunk? {
          buffer := poll.octets;
        }
      } else {
        poll := Chunk(buffer);
      }
    }

    method Consume(n: nat)
      requires Valid() && n <= |buffer|
      modifies this`buffer
      ensures buffer == old(buffer)[n..]
    {
      buffer := buffer[n..];
    }

    /** Move the buffer, or the part of it before a newline, to the line. */
    method TakeLine(line: string) returns (longer: string, ended: bool)
      requires Valid() && '\n' !in line
      modifies this`buffer
      ensures Valid() && '\n' !in longer
      ensures !ended ==> buffer == [] && longer + Everything() == line + old(Everything())
      ensures ended ==> LineTaken(line + old(Everything()), longer, Everything())
    {
      var at := IndexOf(buffer, '\n');
      ended := at < |buffer|;
      longer := line + buffer[..at];
      if ended {
        assert buffer == buffer[..at] + ['\n'] + buffer[at + 1..];
        LineEnds(line, buffer[..at], buffer[at + 1..], Coming(polls));
        Consume(at + 1);
      } else {
        assert line + (buffer + Coming(polls)) == line + buffer + ([] + Coming(polls));
        Consume(at);
      }
    }

    /** The line reader: nothing after the first newline is taken, however the
    octets were cut into chunks, and it fails only for one of the reasons given. */
    method ReadLine(cancelled: nat -> bool, isText: string -> bool) returns (line: Result<string, LineError>, ghost turns: nat)
      requires Valid()
      modifies this
      ensures line.Ok? ==> exists text :: LineTaken(old(Everything()), text, Everything()) && isText(text) && line.value == Trim(text)
      ensures line == Err(EndOfFile) ==> '\n' !in old(Everything())
      ensures line == Err(NotText) ==> exists text :: LineTaken(old(Everything()), text, Everything()) && !isText(text)
      ensures line == Err(ReadFailed) || line == Err(Cancelled) ==>
                exists taken :: '\n' !in taken && old(Everything()) == taken + Everything()
      ensures WaitedFor(old(polls), polls, line == Err(ReadFailed))
      ensures LookedFor(cancelled, turns, |old(polls)| - |polls|, line == Err(Cancelled))
    {
      var octets: string, stop: Option<LineError>;
      octets, stop, turns := ReadOctets(cancelled);
      if stop.Some? {
        return Err(stop.value), turns;
      }
      if !isText(octets) {
        return Err(NotText), turns;
      }
      line := Ok(Trim(octets));
    }

    /** Up to the newline, or until a wait fails, the file ends or someone cancels. */
    method ReadOctets(cancelled: nat -> bool) returns (octets: string, stop: Option<LineError>, ghost turns: nat)
      requires Valid()
      modifies this
      ensures '\n' !in octets
      ensures if stop.None? then LineTaken(old(Everything()), octets, Everything())
              else
                && stop.value in {EndOfFile, ReadFailed, Cancelled} && old(Everything()) == octets + Everything()
                && (stop == Some(EndOfFile) ==> Everything() == [])
      ensures WaitedFor(old(polls), polls, stop == Some(ReadFailed))
      ensures LookedFor(cancelled, turns, |old(polls)| - |polls|, stop == Some(Cancelled))
    {
      octets, turns := [], 0;
      var turn: nat := 0;
      ghost var all := Everything();
      while true
        invariant Valid() && all == octets + Everything() && '\n' !in octets
        invariant WaitedFor(old(polls), polls, false)
        invariant turn == turns && NoneBefore(cancelled, turns, |old(polls)| - |polls|)
        decreases |polls|, |buffer|
      {
        if cancelled(turn) {
          return octets, Some(Cancelled), turns;
        }
        turn, turns := turn + 1, turns + 1;
        NoneYet(cancelled, turns - 1, |old(polls)| - |polls|);
        var poll, ended;
        poll, octets, ended := OneTurn(octets, old(polls));
        if poll == Failed {
          return octets, Some(ReadFailed), turns;
        }
        if poll == Chunk([]) {
          return octets, Some(EndOfFile), turns;
        }
        if ended {
          return octets, None, turns;
        }
      }
    }

    /** Wait once, and move what has come to the line. */
    method OneTurn(line: string, ghost all: seq<Poll>) returns (poll: Poll, longer: string, ended: bool)
      requires Valid() && '\n' !in line && WaitedFor(all, polls, false)
      modifies this
      ensures Valid() && '\n' !in longer
      ensures if ended then LineTaken(line + old(Everything()), longer, Everything())
              else longer + Everything() == line + old(Everything())
      ensures WaitedFor(all, polls, poll == Failed) && |polls| <= |old(polls)| <= |polls| + 1
      ensures |polls| == |old(polls)| ==> poll.Chunk? && (poll == Chunk([]) || ended || |buffer| < |old(buffer)|)
      ensures poll == Chunk([]) ==> Everything() == []
      ensures ended ==> poll.Chunk? && poll != Chunk([])
    {
      ghost var before := polls;
      poll := FillBuffer();
      OneWait(all, before, polls, poll);
      if poll.Chunk? && buffer != [] {
        longer, ended := TakeLine(line);
      } else {
        longer, ended := line, false;
      }
    }
  }

  lemma LineEnds(before: string, head: string, tail: string, later: string)
    requires '\n' !in before && '\n' !in head
    ensures var all := before + (head + ['\n'] + tail + later);
            && IndexOf(all, '\n') == |before + head|
            && all[..|before + head|] == before + head
            && all[|before + head| + 1..] == tail + later
  {
    var line := before + head;
    var all := before + (head + ['\n'] + tail + later);
    assert all == line + ['\n'] + (tail + later);
    IndexOfAfter(line, '\n', tail + later);
  }

  // ---------- frames in the pipe ----------

  function WireAll(frames: seq<Frame>): string {
    if frames == [] then [] else Wire(frames[0]) + WireAll(frames[1..])
  }

  ghost predicate AllFrames(frames: seq<Frame>) {
    forall i :: 0 <= i < |frames| ==> IsFrame(frames[i])
  }

  lemma Assoc(a: string, b: string, c: string)
    ensures a + b + c == a + (b + c)
  {
  }

  lemma {:induction false} WireAllSnoc(frames: seq<Frame>, f: Frame)
    ensures WireAll(frames + [f]) == WireAll(frames) + Wire(f)
  {
    if frames == [] {
      assert [f][1..] == [];
    } else {
      WireAllSnoc(frames[1..], f);
      assert (frames + [f])[1..] == frames[1..] + [f];
      Assoc(Wire(frames[0]), WireAll(frames[1..]), Wire(f));
    }
  }

  lemma EmptyHasNoMagic()
    ensures NoMagic([])
  {
  }

  /** Octets of whole frames read back as those frames. */
  lemma {:induction false} ReadAllOfWire(frames: seq<Frame>)
    requires AllFrames(frames)
    ensures ReadAll(WireAll(frames)) == frames
  {
    EmptyHasNoMagic();
    if frames == [] {
      assert FindMagic([]).None?;
    } else {
      FirstFrame(frames);
      ReadAllOfWire(frames[1..]);
    }
  }

  lemma FirstFrame(frames: seq<Frame>)
    requires AllFrames(frames) && frames != []
    ensures ReadFrame(WireAll(frames)) == (Ok(frames[0]), WireAll(frames[1..]))
  {
    EmptyHasNoMagic();
    ReadsPastJunk([], frames[0], WireAll(frames[1..]));
    assert [] + (Wire(frames[0]) + WireAll(frames[1..])) == WireAll(frames);
  }

  /** A reader that has only part of the stream either takes the first frame
  whole or waits for more: it never sees a refused header. */
  lemma PartReadsOrWaits(part: string, later: string, frames: seq<Frame>)
    requires AllFrames(frames) && part + later == WireAll(frames)
    ensures var (r, rest) := ReadFrame(part);
            || r == Err(Io)
            || (frames != [] && r == Ok(frames[0]) && rest + later == WireAll(frames[1..]))
  {
    if ReadFrame(part).0.Ok? {
      ReadIgnoresLater(part, later);
      if frames != [] {
        FirstFrame(frames);
      }
    } else if FindMagic(part).Some? {
      PartHeaderIsGood(part, later, frames);
    }
  }

  lemma PartHeaderIsGood(part: string, later: string, frames: seq<Frame>)
    requires AllFrames(frames) && part + later == WireAll(frames)
    requires FindMagic(part).Some?
    ensures FindMagic(part) == Some(0)
    ensures |part| >= 18 ==> ParseHeader(part[4..][..14]).Ok?
  {
    assert |part| >= 4;
    assert frames != [];
    var f, all := frames[0], part + later;
    assert all == MAGIC + (Header(f) + f.payload) + WireAll(frames[1..]);
    assert part[0..4] == all[0..4] == MAGIC;
    assert MagicAt(part, 0);
    if |part| >= 18 {
      assert part[4..][..14] == all[4..18] == Header(f);
      HeaderRoundTrip(f);
    }
  }

  // ---------- the connection ----------

  datatype Op =
    | PeerSends(frame: Frame)   // the peer writes one frame
    | Arrive(n: nat)            // up to n octets in flight reach the reader
    | ReaderTurn                // the reader task runs
    | TryRecv                   // the application takes a frame
    | Cut(n: nat)               // the stream breaks, n octets in flight are lost
    | Close                     // the application closes

  /** What a connection holds between operations. */
  datatype Conn = Conn(incoming: seq<Frame>, closed: bool, arrived: string, inFlight: string, cut: bool)

  function Fresh(): Conn {
    Conn([], false, [], [], false)
  }

  function Least(n: nat, limit: nat): nat {
    if n <= limit then n else limit
  }

  function Take(c: Conn, op: Op): Conn {
    match op
    case PeerSends(frame) => if c.cut then c else c.(inFlight := c.inFlight + Wire(frame))
    case Arrive(n) =>
      var k := Least(n, |c.inFlight|);
      c.(arrived := c.arrived + c.inFlight[..k], inFlight := c.inFlight[k..])
    case ReaderTurn =>
      if c.closed then c
      else
        var (frame, rest) := ReadFrame(c.arrived);
        if frame.Ok? then c.(incoming := c.incoming + [frame.value], arrived := rest)
        else if frame == Err(Io) && !(c.cut && c.inFlight == []) then c
        else c.(closed := true)
    case TryRecv => if c.incoming == [] then c else c.(incoming := c.incoming[1..])
    case Cut(n) => c.(inFlight := c.inFlight[..|c.inFlight| - Least(n, |c.inFlight|)], cut := true)
    case Close => c.(closed := true)
  }

  /** The state after a script of operations. */
  function ConnAfter(ops: seq<Op>): Conn {
    if ops == [] then Fresh() else Take(ConnAfter(ops[..|ops| - 1]), ops[|ops| - 1])
  }

  /** The frames that the script sends. */
  function Sent(ops: seq<Op>): seq<Frame> {
    if ops == [] then []
    else
      var init, last := Sent(ops[..|ops| - 1]), ops[|ops| - 1];
      if last.PeerSends? then init + [last.frame] else init
  }

  /** The frames that its receives return. */
  function Received(ops: seq<Op>): seq<Frame> {
    if ops == [] then []
    else
      var init, last := ops[..|ops| - 1], ops[|ops| - 1];
      if last.TryRecv? && ConnAfter(init).incoming != [] then Received(init) + [ConnAfter(init).incoming[0]] else Received(init)
  }

  /** What the reader has, and what it will ever get of the rest. */
  lemma PipeSplits(arrived: string, inFlight: string, whole: string)
    requires arrived + inFlight <= whole
    ensures whole == arrived + whole[|arrived|..] && inFlight <= whole[|arrived|..]
    ensures arrived + inFlight == whole ==> inFlight == whole[|arrived|..]
  {
    var rest := whole[|arrived|..];
    assert whole == arrived + rest;
    forall i | 0 <= i < |inFlight| ensures inFlight[i] == rest[i] {
      assert (arrived + inFlight)[|arrived| + i] == whole[|arrived| + i];
    }
  }

  lemma SendGrows(arrived: string, inFlight: string, whole: string, octets: string)
    requires arrived + inFlight <= whole
    ensures arrived + inFlight <= whole + octets
    ensures arrived + inFlight == whole ==> arrived + (inFlight + octets) == whole + octets
  {
  }

  lemma PipeJoins(arrived: string, inFlight: string, missing: string)
    requires inFlight <= missing
    ensures arrived + inFlight <= arrived + missing
  {
  }

  /** What a reader takes is the first unread frame, and the pipe then holds
  the others. */
  lemma ReaderTakes(arrived: string, inFlight: string, unread: seq<Frame>)
    requires AllFrames(unread) && arrived + inFlight <= WireAll(unread)
    ensures var (r, rest) := ReadFrame(arrived);
            || r == Err(Io)
            || (unread != [] && r == Ok(unread[0]) && rest + inFlight <= WireAll(unread[1..])
               && (arrived + inFlight == WireAll(unread) ==> rest + inFlight == WireAll(unread[1..])))
  {
    var missing := WireAll(unread)[|arrived|..];
    PipeSplits(arrived, inFlight, WireAll(unread));
    PartReadsOrWaits(arrived, missing, unread);
    PipeJoins(ReadFrame(arrived).1, inFlight, missing);
  }

  /** When all that was sent has arrived, a turn brings the next frame. */
  lemma WholePipeReads(arrived: string, inFlight: string, unread: seq<Frame>)
    requires AllFrames(unread) && inFlight == [] && arrived + inFlight == WireAll(unread)
    ensures unread != [] ==> ReadFrame(arrived).0.Ok?
  {
    assert arrived + [] == arrived;
    if unread != [] {
      FirstFrame(unread);
    }
  }

  lemma FirstMoves(popped: seq<Frame>, incoming: seq<Frame>, unread: seq<Frame>)
    requires unread != []
    ensures popped + incoming + unread == popped + (incoming + [unread[0]]) + unread[1..]
  {
  }

  /** Popped, queued and unread frames make up what was sent; the octets in the pipe
  are those of the unread frames, or the front of them after a cut. */
  ghost predicate Accounted(c: Conn, sent: seq<Frame>, popped: seq<Frame>, unread: seq<Frame>) {
    && AllFrames(unread) && sent == popped + c.incoming + unread
    && c.arrived + c.inFlight <= WireAll(unread)
    && (!c.cut ==> c.arrived + c.inFlight == WireAll(unread))
  }

  lemma SendAccounted(c: Conn, sent: seq<Frame>, popped: seq<Frame>, unread: seq<Frame>, f: Frame)
    requires Accounted(c, sent, popped, unread) && IsFrame(f)
    ensures Accounted(Take(c, PeerSends(f)), sent + [f], popped, unread + [f])
  {
    WireAllSnoc(unread, f);
    SendGrows(c.arrived, c.inFlight, WireAll(unread), Wire(f));
  }

  /** A turn brings the first unread frame, or nothing. */
  lemma TurnAccounted(c: Conn, sent: seq<Frame>, popped: seq<Frame>, unread: seq<Frame>) returns (left: seq<Frame>)
    requires Accounted(c, sent, popped, unread)
    ensures Accounted(Take(c, ReaderTurn), sent, popped, left)
    ensures if !c.closed && ReadFrame(c.arrived).0.Ok? then
              unread != [] && ReadFrame(c.arrived).0.value == unread[0] && left == unread[1..]
            else left == unread
  {
    ReaderTakes(c.arrived, c.inFlight, unread);
    left := unread;
    if !c.closed && ReadFrame(c.arrived).0.Ok? {
      FirstMoves(popped, c.incoming, unread);
      left := unread[1..];
    }
  }

  /** All octets of the first unread frame have arrived. */
  ghost predicate WholeFirst(arrived: string, unread: seq<Frame>) {
    unread != [] && |Wire(unread[0])| <= |arrived|
  }

  /** A read completes exactly when they have. */
  lemma ReadsIffWhole(arrived: string, inFlight: string, unread: seq<Frame>)
    requires AllFrames(unread) && arrived + inFlight <= WireAll(unread)
    ensures ReadFrame(arrived).0.Ok? <==> WholeFirst(arrived, unread)
  {
    var missing := WireAll(unread)[|arrived|..];
    PipeSplits(arrived, inFlight, WireAll(unread));
    PartReadsOrWaits(arrived, missing, unread);
    if ReadFrame(arrived).0.Ok? {
      assert |ReadFrame(arrived).1 + missing| == |WireAll(unread[1..])|;
      ReadShortens(arrived, missing, unread);
    }
    if WholeFirst(arrived, unread) {
      var wire := Wire(unread[0]);
      assert arrived == wire + arrived[|wire|..] by {
        assert arrived + missing == wire + WireAll(unread[1..]);
        assert arrived[..|wire|] == (arrived + missing)[..|wire|] == wire;
      }
      EmptyHasNoMagic();
      ReadsPastJunk([], unread[0], arrived[|wire|..]);
      assert [] + (wire + arrived[|wire|..]) == arrived;
    }
  }

  lemma ReadShortens(arrived: string, missing: string, unread: seq<Frame>)
    requires unread != [] && arrived + missing == WireAll(unread)
    requires |ReadFrame(arrived).1| + |missing| == |WireAll(unread[1..])|
    ensures |Wire(unread[0])| <= |arrived|
  {
    assert |arrived| + |missing| == |Wire(unread[0])| + |WireAll(unread[1..])|;
  }

  /** `Frame::read_from` on what has arrived. */
  method ReadNext(arrived: string) returns (frame: Result<Frame, ProtocolError>, rest: string)
    ensures (frame, rest) == ReadFrame(arrived)
  {
    var reader := new Reader(arrived);
    frame := reader.ReadFrom();
    rest := reader.rest;
  }

  /** Both ends of one direction: what the peer sent, the octets in the pipe, the
  reader task's queue, and what the application has taken from it. */
  class LiveConnection {
    var incoming: seq<Frame>
    var closed: bool
    var arrived: string
    var inFlight: string
    var cut: bool
    ghost var sent: seq<Frame>
    ghost var popped: seq<Frame>
    ghost var unread: seq<Frame>

    function State(): Conn
      reads this
    {
      Conn(incoming, closed, arrived, inFlight, cut)
    }

    /** Popped, queued and unread frames make up what was sent; the octets in the
    pipe are those of the unread frames, or the front of them after a cut. */
    ghost predicate Valid()
      reads this
    {
      Accounted(State(), sent, popped, unread)
    }

    /** Popped then queued is always a prefix of sent, and until the stream is
    cut the frames still in the pipe are all that is missing. */
    ghost predicate LosslessFifo()
      reads this
    {
      && popped + incoming <= sent
      && (!cut ==> popped + incoming + ReadAll(arrived + inFlight) == sent)
    }

    lemma ValidIsLossless()
      requires Valid()
      ensures LosslessFifo()
    {
      ReadAllOfWire(unread);
      assert arrived + inFlight <= WireAll(unread);
    }

    constructor ()
      ensures Valid() && State() == Fresh() && sent == [] && popped == [] && unread == []
    {
      incoming, closed, arrived, inFlight, cut := [], false, [], [], false;
      sent, popped, unread := [], [], [];
    }

    method PeerSends(f: Frame)
      requires Valid() && IsFrame(f)
      modifies this`sent, this`inFlight, this`unread
      ensures Valid() && State() == Take(old(State()), Op.PeerSends(f)) && sent == old(sent) + [f]
    {
      SendAccounted(State(), sent, popped, unread, f);
      if !cut {
        var octets := Encode(f);
        inFlight := inFlight + octets.value;
      }
      sent, unread := sent + [f], unread + [f];
    }

    method Arrive(n: nat)
      requires Valid()
      modifies this`arrived, this`inFlight
      ensures Valid() && State() == Take(old(State()), Op.Arrive(n)) && arrived + inFlight == old(arrived + inFlight)
    {
      var k := Least(n, |inFlight|);
      assert arrived + inFlight == arrived + inFlight[..k] + inFlight[k..];
      arrived, inFlight := arrived + inFlight[..k], inFlight[k..];
    }

    /** One turn of the reader task: push a complete frame, wait for more octets,
    or stop for good at end of file or at a refused header. */
    method ReaderTurn()
      requires Valid()
      modifies this`incoming, this`arrived, this`closed, this`unread
      ensures Valid() && State() == Take(old(State()), Op.ReaderTurn)
      ensures if !old(closed) && WholeFirst(old(arrived), old(unread)) then
                !closed && unread == old(unread)[1..] && incoming == old(incoming) + [old(unread)[0]]
              else
                && unread == old(unread) && incoming == old(incoming) && arrived == old(arrived)
                && closed == (old(closed) || (cut && inFlight == []))
    {
      ReadsIffWhole(arrived, inFlight, unread);
      ReaderTakes(arrived, inFlight, unread);
      ghost var left := TurnAccounted(State(), sent, popped, unread);
      ghost var next := Take(State(), Op.ReaderTurn);
      if closed {
        return;
      }
      var frame, rest := ReadNext(arrived);
      if frame.Ok? {
        incoming := incoming + [frame.value];
        arrived := rest;
        unread := left;
      } else if frame != Err(Io) || (cut && inFlight == []) {
        closed := true;
      }
      assert State() == next;
    }

    method TryRecv() returns (frame: Option<Frame>)
      requires Valid()
      modifies this`incoming, this`popped
      ensures Valid() && State() == Take(old(State()), Op.TryRecv)
      ensures old(incoming) == [] ==> frame == None && incoming == [] && popped == old(popped)
      ensures old(incoming) != [] ==>
              frame == Some(old(incoming)[0]) && popped == old(popped) + [frame.value] && incoming == old(incoming)[1..]
    {
      if incoming == [] {
        return None;
      }
      frame := Some(incoming[0]);
      popped := popped + [incoming[0]];
      incoming := incoming[1..];
    }

    /** The stream breaks: the last `n` octets in flight never arrive. */
    method Cut(n: nat)
      requires Valid()
      modifies this`inFlight, this`cut
      ensures Valid() && State() == Take(old(State()), Op.Cut(n))
    {
      var k := |inFlight| - Least(n, |inFlight|);
      assert arrived + inFlight[..k] <= arrived + inFlight;
      inFlight := inFlight[..k];
      cut := true;
    }

    /** The reader task is aborted; what is queued stays. */
    method Close()
      requires Valid()
      modifies this`closed
      ensures Valid() && State() == Take(old(State()), Op.Close) && closed
    {
      closed := true;
    }

    /** One operation of a script. */
    method Do(op: Op) returns (frame: Option<Frame>)
      requires Valid() && (op.PeerSends? ==> IsFrame(op.frame))
      modifies this
      ensures Valid() && State() == Take(old(State()), op)
      ensures sent == if op.PeerSends? then old(sent) + [op.frame] else old(sent)
      ensures frame == if op.TryRecv? && old(incoming) != [] then Some(old(incoming)[0]) else None
      ensures popped == if frame.Some? then old(popped) + [frame.value] else old(popped)
    {
      frame := None;
      match op
      case PeerSends(f) => PeerSends(f);
      case Arrive(n) => Arrive(n);
      case ReaderTurn => ReaderTurn();
      case TryRecv => frame := TryRecv();
      case Cut(n) => Cut(n);
      case Close => Close();
    }

    /** Reader turns until one brings nothing. */
    method ReadOut()
      requires Valid() && !cut && !closed && inFlight == []
      modifies this`incoming, this`arrived, this`closed, this`unread
      ensures Valid() && unread == []
    {
      var more := true;
      while more
        invariant Valid() && !closed
        invariant !more ==> unread == []
        decreases |unread| + if more then 1 else 0
      {
        var before := |incoming|;
        WholePipeReads(arrived, inFlight, unread);
        ReaderTurn();
        more := |incoming| > before;
      }
    }

    /** On a connection that is neither cut nor closed nothing is lost: once all
    has arrived, enough turns and receives give every frame that was sent. */
    method Drain() returns (rest: seq<Frame>)
      requires Valid() && !cut && !closed
      modifies this`arrived, this`inFlight, this`incoming, this`closed, this`unread, this`popped
      ensures Valid() && popped == old(popped) + rest == sent
    {
      Arrive(|inFlight|);
      ReadOut();
      rest := TakeAll();
    }

    method TakeAll() returns (rest: seq<Frame>)
      requires Valid() && unread == []
      modifies this`incoming, this`popped
      ensures Valid() && popped == old(popped) + rest == sent
    {
      rest := [];
      while incoming != []
        invariant Valid() && popped == old(popped) + rest
        decreases |incoming|
      {
        var frame := TryRecv();
        rest := rest + [frame.value];
      }
    }
  }

  lemma ScriptSnoc(ops: seq<Op>, i: nat)
    requires i < |ops|
    ensures ConnAfter(ops[..i + 1]) == Take(ConnAfter(ops[..i]), ops[i])
    ensures Sent(ops[..i + 1]) == if ops[i].PeerSends? then Sent(ops[..i]) + [ops[i].frame] else Sent(ops[..i])
    ensures Received(ops[..i + 1]) ==
            if ops[i].TryRecv? && ConnAfter(ops[..i]).incoming != [] then Received(ops[..i]) + [ConnAfter(ops[..i]).incoming[0]]
            else Received(ops[..i])
  {
    assert ops[..i + 1][..i] == ops[..i];
  }

  // ---------- every script ----------

  ghost predicate SendsFrames(ops: seq<Op>) {
    forall i :: 0 <= i < |ops| && ops[i].PeerSends? ==> IsFrame(ops[i].frame)
  }

  /** The stream does not break and the application does not close. */
  ghost predicate Unbroken(ops: seq<Op>) {
    forall i :: 0 <= i < |ops| ==> !ops[i].Cut? && !ops[i].Close?
  }

  /** What the script sends and the reader has not queued. */
  function Unread(ops: seq<Op>): seq<Frame> {
    var k := |Received(ops)| + |ConnAfter(ops).incoming|;
    if k <= |Sent(ops)| then Sent(ops)[k..] else []
  }

  lemma StepAccounted(c: Conn, op: Op, sent: seq<Frame>, popped: seq<Frame>, unread: seq<Frame>) returns (left: seq<Frame>)
    requires Accounted(c, sent, popped, unread) && (op.PeerSends? ==> IsFrame(op.frame))
    ensures Accounted(Take(c, op), if op.PeerSends? then sent + [op.frame] else sent,
                      if op.TryRecv? && c.incoming != [] then popped + [c.incoming[0]] else popped, left)
  {
    left := unread;
    match op
    case PeerSends(f) =>
      SendAccounted(c, sent, popped, unread, f);
      left := unread + [f];
    case Arrive(n) =>
      var k := Least(n, |c.inFlight|);
      assert c.arrived + c.inFlight == c.arrived + c.inFlight[..k] + c.inFlight[k..];
    case ReaderTurn => left := TurnAccounted(c, sent, popped, unread);
    case TryRecv =>
      if c.incoming != [] {
        assert popped + c.incoming + unread == popped + [c.incoming[0]] + c.incoming[1..] + unread;
      }
    case Cut(n) =>
      var k := |c.inFlight| - Least(n, |c.inFlight|);
      assert c.arrived + c.inFlight[..k] <= c.arrived + c.inFlight;
    case Close =>
  }

  /** In every script what was received, what is queued and what is unread make up
  what was sent. */
  lemma {:induction false} ScriptAccounted(ops: seq<Op>)
    requires SendsFrames(ops)
    ensures Accounted(ConnAfter(ops), Sent(ops), Received(ops), Unread(ops))
    decreases |ops|
  {
    if ops != [] {
      var init, last := ops[..|ops| - 1], ops[|ops| - 1];
      assert SendsFrames(init);
      ScriptAccounted(init);
      var left := StepAccounted(ConnAfter(init), last, Sent(init), Received(init), Unread(init));
      assert left == Unread(ops);
    }
  }

  /** Closed after a cut, with nothing in flight and nothing to read. */
  ghost predicate ClosedAtEnd(c: Conn) {
    c.closed ==> c.cut && c.inFlight == [] && ReadFrame(c.arrived).0.Err?
  }

  lemma ClosingStep(c: Conn, op: Op, sent: seq<Frame>, popped: seq<Frame>, unread: seq<Frame>)
    requires ClosedAtEnd(c) && !op.Close? && Accounted(c, sent, popped, unread)
    ensures ClosedAtEnd(Take(c, op))
  {
    assert c.arrived + [] == c.arrived;
    ReaderTakes(c.arrived, c.inFlight, unread);
  }

  lemma {:induction false} ClosingScript(ops: seq<Op>)
    requires SendsFrames(ops) && Close !in ops
    ensures ClosedAtEnd(ConnAfter(ops))
    decreases |ops|
  {
    if ops != [] {
      var init := ops[..|ops| - 1];
      assert SendsFrames(init);
      ClosingScript(init);
      ScriptAccounted(init);
      ClosingStep(ConnAfter(init), ops[|ops| - 1], Sent(init), Received(init), Unread(init));
    }
  }

  /** A connection closes only by the application, or after a cut when nothing is in
  flight and no whole frame is left to read. */
  lemma ClosesOnlyAtTheEnd(ops: seq<Op>)
    requires SendsFrames(ops) && Close !in ops && ConnAfter(ops).closed
    ensures var c := ConnAfter(ops); c.cut && c.inFlight == [] && !WholeFirst(c.arrived, Unread(ops))
  {
    ClosingScript(ops);
    ScriptAccounted(ops);
    ReadsIffWhole(ConnAfter(ops).arrived, ConnAfter(ops).inFlight, Unread(ops));
  }

  /** So a reader with part of a frame waits: without a cut or a close the connection
  stays open, whatever turns fall between the fragments. */
  lemma {:induction false} StaysOpen(ops: seq<Op>)
    requires SendsFrames(ops) && Unbroken(ops)
    ensures !ConnAfter(ops).closed && !ConnAfter(ops).cut
    decreases |ops|
  {
    if ops != [] {
      var init := ops[..|ops| - 1];
      assert SendsFrames(init);
      StaysOpen(init);
      ScriptAccounted(init);
      ReaderTakes(ConnAfter(init).arrived, ConnAfter(init).inFlight, Unread(init));
    }
  }

  lemma {:induction false} CloseCloses(ops: seq<Op>)
    requires Close in ops
    ensures ConnAfter(ops).closed
    decreases |ops|
  {
    if ops[|ops| - 1] != Close {
      assert Close in ops[..|ops| - 1];
      CloseCloses(ops[..|ops| - 1]);
    }
  }

  /** Closed is for good: nothing more is queued, and what was queued can still be
  received. */
  lemma {:induction false} ClosedForGood(ops: seq<Op>, more: seq<Op>)
    requires ConnAfter(ops).closed
    ensures ConnAfter(ops + more).closed
    ensures Received(ops + more) + ConnAfter(ops + more).incoming == Received(ops) + ConnAfter(ops).incoming
    decreases |more|
  {
    if more == [] {
      assert ops + more == ops;
    } else {
      var init := ops + more[..|more| - 1];
      ClosedForGood(ops, more[..|more| - 1]);
      assert (ops + more)[..|ops + more| - 1] == init;
      ClosedStep(init, more[|more| - 1], ops + more);
    }
  }

  lemma ClosedStep(init: seq<Op>, op: Op, all: seq<Op>)
    requires all == init + [op] && ConnAfter(init).closed
    ensures ConnAfter(all).closed && Received(all) + ConnAfter(all).incoming == Received(init) + ConnAfter(init).incoming
  {
    assert all[..|init|] == init;
  }

  function Times(op: Op, n: nat): seq<Op> {
    if n == 0 then [] else Times(op, n - 1) + [op]
  }

  lemma AddOne(ops: seq<Op>, op: Op, n: nat)
    requires n > 0
    ensures ops + Times(op, n) == ops + Times(op, n - 1) + [op]
    ensures (ops + Times(op, n - 1) + [op])[..|ops + Times(op, n - 1)|] == ops + Times(op, n - 1)
  {
  }

  /** All has arrived, nothing but the queue has changed since `ops`, and the queue has
  at least `n` frames more, or all. */
  ghost predicate Queueing(ops: seq<Op>, all: seq<Op>, n: nat) {
    && SendsFrames(all) && Unbroken(all) && ConnAfter(all).inFlight == []
    && Sent(all) == Sent(ops) && Received(all) == Received(ops)
    && (Unread(all) == [] || |Unread(all)| + n <= |Unread(ops)|)
  }

  /** Once all that was sent has arrived, every turn queues one more frame. */
  lemma {:induction false} TurnsQueue(ops: seq<Op>, n: nat)
    requires Queueing(ops, ops, 0)
    ensures Queueing(ops, ops + Times(ReaderTurn, n), n)
  {
    if n == 0 {
      assert ops + [] == ops;
    } else {
      TurnsQueue(ops, n - 1);
      AddOne(ops, ReaderTurn, n);
      NextTurnQueues(ops, ops + Times(ReaderTurn, n - 1), n - 1);
    }
  }

  lemma NextTurnQueues(ops: seq<Op>, all: seq<Op>, n: nat)
    requires Queueing(ops, all, n)
    ensures Queueing(ops, all + [ReaderTurn], n + 1)
  {
    OneTurnQueues(all);
  }

  lemma OneTurnQueues(ops: seq<Op>)
    requires SendsFrames(ops) && Unbroken(ops) && ConnAfter(ops).inFlight == []
    ensures var all := ops + [ReaderTurn];
            && SendsFrames(all) && Unbroken(all) && ConnAfter(all).inFlight == []
            && Sent(all) == Sent(ops) && Received(all) == Received(ops)
            && |Unread(all)| == if Unread(ops) == [] then 0 else |Unread(ops)| - 1
  {
    var c, all := ConnAfter(ops), ops + [ReaderTurn];
    assert all[..|ops|] == ops;
    ScriptAccounted(ops);
    ScriptAccounted(all);
    StaysOpen(ops);
    WholePipeReads(c.arrived, c.inFlight, Unread(ops));
    ReaderTakes(c.arrived, c.inFlight, Unread(ops));
  }

  /** Everything sent has been queued or received, in `all` as in `ops`. */
  ghost predicate Receiving(ops: seq<Op>, all: seq<Op>) {
    SendsFrames(all) && Sent(all) == Sent(ops) && Unread(all) == []
  }

  lemma {:induction false} ReceivesTake(ops: seq<Op>, n: nat)
    requires Receiving(ops, ops)
    ensures Receiving(ops, ops + Times(TryRecv, n))
    ensures Queued(ops + Times(TryRecv, n)) == 0 || Queued(ops + Times(TryRecv, n)) + n == Queued(ops)
  {
    if n == 0 {
      assert ops + [] == ops;
    } else {
      ReceivesTake(ops, n - 1);
      AddOne(ops, TryRecv, n);
      OneReceive(ops, ops + Times(TryRecv, n - 1));
    }
  }

  function Queued(ops: seq<Op>): nat {
    |ConnAfter(ops).incoming|
  }

  lemma OneReceive(ops: seq<Op>, all: seq<Op>)
    requires Receiving(ops, all)
    ensures Receiving(ops, all + [TryRecv])
    ensures Queued(all + [TryRecv]) == if Queued(all) == 0 then 0 else Queued(all) - 1
  {
    assert (all + [TryRecv])[..|all|] == all;
  }

  /** Liveness, for every script without a cut or a close: when the rest has arrived,
  enough turns and receives give the application exactly what was sent. */
  lemma AllIsReceived(ops: seq<Op>, n: nat, turns: nat, receives: nat)
    requires SendsFrames(ops) && Unbroken(ops)
    requires n >= |ConnAfter(ops).inFlight| && turns >= |Sent(ops)| && receives >= |Sent(ops)|
    ensures Received(ops + [Arrive(n)] + Times(ReaderTurn, turns) + Times(TryRecv, receives)) == Sent(ops)
  {
    var there := ops + [Arrive(n)];
    assert there[..|ops|] == ops;
    TurnsQueue(there, turns);
    var queued := there + Times(ReaderTurn, turns);
    ScriptAccounted(queued);
    ReceivesTake(queued, receives);
    ScriptAccounted(queued + Times(TryRecv, receives));
  }

  /** And a break is noticed: after a cut, when the rest has arrived, enough turns
  close the connection. */
  lemma {:induction false} BreakIsNoticed(ops: seq<Op>, turns: nat)
    requires Broken(ops)
    ensures Broken(ops + Times(ReaderTurn, turns))
    ensures ConnAfter(ops + Times(ReaderTurn, turns)).closed || turns + |Unread(ops + Times(ReaderTurn, turns))| <= |Unread(ops)|
  {
    if turns == 0 {
      assert ops + [] == ops;
    } else {
      BreakIsNoticed(ops, turns - 1);
      AddOne(ops, ReaderTurn, turns);
      OneTurnCloses(ops + Times(ReaderTurn, turns - 1));
    }
  }

  ghost predicate Broken(ops: seq<Op>) {
    SendsFrames(ops) && ConnAfter(ops).cut && ConnAfter(ops).inFlight == []
  }

  lemma OneTurnCloses(ops: seq<Op>)
    requires Broken(ops)
    ensures Broken(ops + [ReaderTurn])
    ensures ConnAfter(ops + [ReaderTurn]).closed || (!ConnAfter(ops).closed && |Unread(ops + [ReaderTurn])| + 1 <= |Unread(ops)|)
  {
    var all := ops + [ReaderTurn];
    assert all[..|ops|] == ops;
    ScriptAccounted(ops);
    ScriptAccounted(all);
  }

  /** Every run of sends, arrivals in any fragments, reader turns, receives, cuts
  and closes keeps the connection a lossless queue; what was sent is what the
  script sends, and what is received is what came out. */
  method RunConnection(ops: seq<Op>) returns (conn: LiveConnection, received: seq<Frame>)
    requires SendsFrames(ops)
    ensures conn.Valid() && conn.LosslessFifo()
    ensures Unbroken(ops) ==> !conn.closed
    ensures conn.State() == ConnAfter(ops) && conn.sent == Sent(ops) && conn.popped == received == Received(ops)
  {
    conn := new LiveConnection();
    received := [];
    for i := 0 to |ops|
      invariant conn.Valid() && fresh(conn)
      invariant conn.State() == ConnAfter(ops[..i]) && conn.sent == Sent(ops[..i])
      invariant conn.popped == received == Received(ops[..i])
    {
      ScriptSnoc(ops, i);
      var frame := conn.Do(ops[i]);
      if frame.Some? {
        received := received + [frame.value];
      }
    }
    assert ops[..|ops|] == ops;
    conn.ValidIsLossless();
    if Unbroken(ops) {
      StaysOpen(ops);
    }
  }

  /** The line reader hands over exactly the frames: whatever follows the newline
  of the answer line reads back as the frames that were sent. */
  lemma HandOverLosesNothing(line: string, frames: seq<Frame>)
    requires '\n' !in line && AllFrames(frames)
    ensures var all := line + ['\n'] + WireAll(frames);
            var i := IndexOf(all, '\n');
            i < |all| && all[..i] == line && ReadAll(all[i + 1..]) == frames
  {
    IndexOfAfter(line, '\n', WireAll(frames));
    ReadAllOfWire(frames);
    var all := line + ['\n'] + WireAll(frames);
    assert all[|line| + 1..] == WireAll(frames);
  }
}
