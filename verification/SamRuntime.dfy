/** Shutdown of the SAM runtime: tokens handed to accept, connect and lookup
tasks, tracked through weak references, and cancelled for good when closing.

A client is a number; `nextClient` numbers the clients created later. One owner
holds the runtime: a clone would have a `closing` flag of its own. The book below
says, operation by operation, what becomes of every token. */
module SamRuntime {
  import opened Wrappers

  datatype Kind = Accept | Connect | Lookup

  datatype Op =
    | HandOut(kind: Kind)
    | EndTask(index: nat)       // the task that got the token of this number ends
    | CancelKind(kind: Kind)
    | Close
    | Shutdown
    | Register(stream: nat)
    | SendTask
    | Clear

  // ---------- the book ----------

  /** A token that was handed out; `tracked` until the shutdown state is cleared. */
  datatype Entry = Entry(kind: Kind, held: bool, cancelled: bool, tracked: bool)

  /** `flags` says of each kind whether it was cancelled since its last token. */
  datatype Book = Book(
    tokens: seq<Entry>, flags: map<Kind, bool>, closing: bool, client: nat, nextClient: nat, closingClient: Option<nat>,
    streams: seq<nat>)

  const UNSET: map<Kind, bool> := map[Accept := false, Connect := false, Lookup := false]
  const ALL_SET: map<Kind, bool> := map[Accept := true, Connect := true, Lookup := true]

  function NewBook(client: nat): Book {
    Book([], UNSET, false, client, client + 1, None, [])
  }

  function CancelEntry(e: Entry, kinds: set<Kind>): Entry {
    e.(cancelled := e.cancelled || (e.held && e.tracked && e.kind in kinds))
  }

  function Cancelled(tokens: seq<Entry>, kinds: set<Kind>): seq<Entry> {
    seq(|tokens|, i requires 0 <= i < |tokens| => CancelEntry(tokens[i], kinds))
  }

  function Untracked(tokens: seq<Entry>): seq<Entry> {
    seq(|tokens|, i requires 0 <= i < |tokens| => tokens[i].(tracked := false))
  }

  const EVERY_KIND: set<Kind> := {Accept, Connect, Lookup}

  /** What a shutdown gives: the registered streams and the original client. */
  function ShutdownGives(b: Book): (seq<nat>, nat) {
    (b.streams, b.closingClient.GetOr(b.client))
  }

  function Closed(b: Book): Book {
    b.(closing := true, tokens := Cancelled(b.tokens, EVERY_KIND), flags := ALL_SET)
  }

  function Record(b: Book, op: Op): Book {
    match op
    case HandOut(kind) =>
      if b.closing then b else b.(tokens := b.tokens + [Entry(kind, true, false, true)], flags := b.flags[kind := false])
    case EndTask(index) =>
      if index < |b.tokens| then b.(tokens := b.tokens[index := b.tokens[index].(held := false)]) else b
    case CancelKind(kind) => b.(tokens := Cancelled(b.tokens, {kind}), flags := b.flags[kind := true])
    case Close => Closed(b)
    case Shutdown =>
      if b.closingClient.Some? then Closed(b)
      else Closed(b).(closingClient := Some(b.client), client := b.nextClient, nextClient := b.nextClient + 1)
    case Register(stream) => b.(streams := b.streams + [stream])
    case SendTask => b
    case Clear => b.(streams := [], tokens := Untracked(b.tokens), closingClient := None)
  }

  function BookAfter(client: nat, ops: seq<Op>): Book {
    if ops == [] then NewBook(client) else Record(BookAfter(client, ops[..|ops| - 1]), ops[|ops| - 1])
  }

  /** What the shutdowns of a run give. */
  function Shutdowns(client: nat, ops: seq<Op>): seq<(seq<nat>, nat)> {
    if ops == [] then []
    else
      var init, last := ops[..|ops| - 1], ops[|ops| - 1];
      if last.Shutdown? then Shutdowns(client, init) + [ShutdownGives(BookAfter(client, init))] else Shutdowns(client, init)
  }

  // ---------- what the book shows ----------

  ghost predicate AllCancelled(b: Book) {
    forall i :: 0 <= i < |b.tokens| && b.tokens[i].held ==> b.tokens[i].cancelled
  }

  /** Every live token can still be reached by a cancellation. */
  ghost predicate NoneForgotten(b: Book) {
    forall i :: 0 <= i < |b.tokens| && b.tokens[i].held && !b.tokens[i].cancelled ==> b.tokens[i].tracked
  }

  lemma EveryKindListed(k: Kind)
    ensures k in EVERY_KIND
  {
    match k
    case Accept =>
    case Connect =>
    case Lookup =>
  }

  /** Closing cancels every live token if and only if none was forgotten. */
  lemma CloseCancelsIff(b: Book)
    ensures AllCancelled(Record(b, Close)) <==> NoneForgotten(b)
    ensures AllCancelled(Record(b, Shutdown)) <==> NoneForgotten(b)
  {
    assert forall i :: 0 <= i < |b.tokens| ==> b.tokens[i].kind in EVERY_KIND by {
      forall i | 0 <= i < |b.tokens| ensures b.tokens[i].kind in EVERY_KIND {
        EveryKindListed(b.tokens[i].kind);
      }
    }
    var after := Closed(b).tokens;
    assert forall i :: 0 <= i < |b.tokens| ==> after[i] == CancelEntry(b.tokens[i], EVERY_KIND);
    if AllCancelled(Closed(b)) {
      forall i | 0 <= i < |b.tokens| && b.tokens[i].held && !b.tokens[i].cancelled ensures b.tokens[i].tracked {
        assert after[i].held;
      }
    }
  }

  /** Clearing before closing forgets tokens: this one stays live for good. */
  lemma EarlyClearForgets(client: nat, kind: Kind)
    ensures !AllCancelled(BookAfter(client, [HandOut(kind), Clear, Close]))
  {
    assert [HandOut(kind)][..0] == [];
    assert [HandOut(kind), Clear][..1] == [HandOut(kind)];
    assert [HandOut(kind), Clear, Close][..2] == [HandOut(kind), Clear];
    var one := BookAfter(client, [HandOut(kind)]);
    assert one == Record(BookAfter(client, []), HandOut(kind));
    var two := BookAfter(client, [HandOut(kind), Clear]);
    assert two == Record(one, Clear);
    assert two.tokens[0] == Entry(kind, true, false, false);
    CloseCancelsIff(two);
  }

  ghost predicate ClosedBefore(ops: seq<Op>, i: nat)
    requires i <= |ops|
  {
    exists j :: 0 <= j < i && (ops[j].Close? || ops[j].Shutdown?)
  }

  /** Every clear comes after a close. */
  ghost predicate NoEarlyClear(ops: seq<Op>) {
    forall i :: 0 <= i < |ops| && ops[i].Clear? ==> ClosedBefore(ops, i)
  }

  lemma NoEarlyClearInit(ops: seq<Op>)
    requires ops != [] && NoEarlyClear(ops)
    ensures NoEarlyClear(ops[..|ops| - 1])
    ensures ops[|ops| - 1].Clear? ==> ClosedBefore(ops[..|ops| - 1], |ops| - 1)
  {
    var init := ops[..|ops| - 1];
    forall i | 0 <= i < |ops| && ops[i].Clear? ensures ClosedBefore(init, i) {
      var j :| 0 <= j < i && (ops[j].Close? || ops[j].Shutdown?);
      assert init[j] == ops[j];
    }
  }

  lemma {:induction false} ClosingMeansClosed(client: nat, ops: seq<Op>)
    ensures BookAfter(client, ops).closing <==> ClosedBefore(ops, |ops|)
    decreases |ops|
  {
    if ops != [] {
      var k := |ops| - 1;
      ClosingMeansClosed(client, ops[..k]);
      if ClosedBefore(ops[..k], k) {
        var j :| 0 <= j < k && (ops[..k][j].Close? || ops[..k][j].Shutdown?);
        assert ops[j] == ops[..k][j];
      }
      if ClosedBefore(ops, k + 1) && !(ops[k].Close? || ops[k].Shutdown?) {
        var j :| 0 <= j < k + 1 && (ops[j].Close? || ops[j].Shutdown?);
        assert ops[..k][j] == ops[j];
      }
    }
  }

  /** What one operation keeps of a book in order. */
  ghost predicate InOrder(b: Book) {
    && (b.closing ==> AllCancelled(b) && b.flags == ALL_SET)
    && (!b.closing ==> forall i :: 0 <= i < |b.tokens| ==> b.tokens[i].tracked)
  }

  lemma SetAlready(kind: Kind)
    ensures ALL_SET[kind := true] == ALL_SET
  {
    EveryKindListed(kind);
  }

  lemma AllThreeSet(flags: map<Kind, bool>)
    requires flags.Keys == EVERY_KIND
    ensures flags[Accept := true][Connect := true][Lookup := true] == ALL_SET
  {
  }

  lemma RecordKeepsOrder(b: Book, op: Op)
    requires InOrder(b) && (op.Clear? ==> b.closing)
    ensures InOrder(Record(b, op))
  {
    CloseCancelsIff(b);
    match op
    case CancelKind(kind) =>
      SetAlready(kind);
      assert forall i :: 0 <= i < |b.tokens| ==> Record(b, op).tokens[i] == CancelEntry(b.tokens[i], {kind});
    case Clear =>
      assert forall i :: 0 <= i < |b.tokens| ==> Record(b, op).tokens[i] == b.tokens[i].(tracked := false);
    case _ =>
  }

  /** In every run that does not clear before closing: once closing has begun,
  every token still held is cancelled. */
  lemma {:induction false} ShutsDownForGood(client: nat, ops: seq<Op>)
    requires NoEarlyClear(ops)
    ensures InOrder(BookAfter(client, ops))
    decreases |ops|
  {
    if ops != [] {
      var init := ops[..|ops| - 1];
      NoEarlyClearInit(ops);
      ShutsDownForGood(client, init);
      ClosingMeansClosed(client, init);
      RecordKeepsOrder(BookAfter(client, init), ops[|ops| - 1]);
    }
  }

  lemma AfterMore(client: nat, ops: seq<Op>, more: seq<Op>)
    requires more != []
    ensures BookAfter(client, ops + more) == Record(BookAfter(client, ops + more[..|more| - 1]), more[|more| - 1])
  {
    assert (ops + more)[..|ops + more| - 1] == ops + more[..|more| - 1];
  }

  /** Once closing, for good: no token is given out, none is taken back, and none
  that was cancelled comes to life. */
  lemma {:induction false} ClosedForGood(client: nat, ops: seq<Op>, more: seq<Op>)
    requires BookAfter(client, ops).closing
    ensures StaysClosed(BookAfter(client, ops), BookAfter(client, ops + more))
    decreases |more|
  {
    if more == [] {
      assert ops + more == ops;
    } else {
      ClosedForGood(client, ops, more[..|more| - 1]);
      AfterMore(client, ops, more);
      RecordStaysClosed(BookAfter(client, ops), BookAfter(client, ops + more[..|more| - 1]), more[|more| - 1]);
    }
  }

  ghost predicate StaysClosed(b: Book, end: Book) {
    && end.closing && |end.tokens| == |b.tokens| && (b.flags == ALL_SET ==> end.flags == ALL_SET)
    && forall i :: 0 <= i < |b.tokens| ==>
         (b.tokens[i].cancelled ==> end.tokens[i].cancelled) && (end.tokens[i].held ==> b.tokens[i].held)
  }

  lemma RecordStaysClosed(b: Book, end: Book, op: Op)
    requires StaysClosed(b, end)
    ensures StaysClosed(b, Record(end, op))
  {
    if op.CancelKind? {
      SetAlready(op.kind);
    }
  }

  /** Until the next clear every shutdown gives the client of the first, and the
  streams registered since the last clear, those of later registrations too. */
  lemma {:induction false} ShutdownsAgree(client: nat, ops: seq<Op>, more: seq<Op>)
    requires ops != [] && ops[|ops| - 1].Shutdown?
    requires forall i :: 0 <= i < |more| ==> !more[i].Clear?
    ensures ShutdownGives(BookAfter(client, ops + more)).1 == ShutdownGives(BookAfter(client, ops[..|ops| - 1])).1
    ensures ShutdownGives(BookAfter(client, ops[..|ops| - 1])).0 <= ShutdownGives(BookAfter(client, ops + more)).0
    ensures BookAfter(client, ops + more).closingClient.Some?
    decreases |more|
  {
    if more == [] {
      assert ops + more == ops;
    } else {
      ShutdownsAgree(client, ops, more[..|more| - 1]);
      AfterMore(client, ops, more);
    }
  }

  // ---------- tokens and handles ----------

  /** The shared flag of one task. `held` says whether anyone still holds it, so
  whether a weak reference to it can be upgraded. */
  class Token {
    var cancelled: bool
    var held: bool

    constructor ()
      ensures !cancelled && held
    {
      cancelled, held := false, true;
    }

    /** The task ends and drops its token. */
    method Drop()
      modifies this`held
      ensures !held
    {
      held := false;
    }
  }

  /** The abort handle of a send task. */
  class Handle {
    var aborted: bool

    constructor ()
      ensures !aborted
    {
      aborted := false;
    }
  }

  /** `retain`: cancel every token that is still held, forget the others. */
  method CancelTokens(tokens: seq<Token>) returns (kept: seq<Token>)
    modifies tokens
    ensures forall t :: t in tokens ==> t.held == old(t.held) && t.cancelled == (old(t.cancelled) || t.held)
    ensures forall t :: t in kept <==> t in tokens && t.held
  {
    kept := [];
    for i := 0 to |tokens|
      invariant forall t :: t in tokens ==> t.held == old(t.held)
      invariant forall t :: t in tokens ==> t.cancelled == (old(t.cancelled) || (t.held && t in tokens[..i]))
      invariant forall t :: t in kept <==> t in tokens[..i] && t.held
    {
      assert tokens[..i + 1] == tokens[..i] + [tokens[i]];
      if tokens[i].held {
        tokens[i].cancelled := true;
        kept := kept + [tokens[i]];
      }
    }
    assert tokens[..|tokens|] == tokens;
  }

  // ---------- the runtime ----------

  ghost predicate AnyKind(tokens: map<Kind, seq<Token>>, t: Token) {
    exists k :: k in tokens && t in tokens[k]
  }

  lemma InOneKind(tokens: map<Kind, seq<Token>>, t: Token)
    requires tokens.Keys == EVERY_KIND
    ensures AnyKind(tokens, t) <==> t in tokens[Accept] || t in tokens[Connect] || t in tokens[Lookup]
  {
  }

  class Runtime {
    var client: nat
    var closingClient: Option<nat>
    var nextClient: nat
    var flags: map<Kind, bool>
    var tokens: map<Kind, seq<Token>>
    var sends: seq<Handle>
    var streams: seq<nat>
    var closing: bool
    ghost var issued: set<Token>

    ghost predicate Tracks(kind: Kind, t: Token)
      reads this`tokens
    {
      kind in tokens && t in tokens[kind]
    }

    ghost predicate Valid()
      reads this
    {
      tokens.Keys == flags.Keys == EVERY_KIND && forall k, t :: k in tokens && t in tokens[k] ==> t in issued
    }

    constructor (client: nat)
      ensures Valid() && !closing && issued == {} && closingClient == None && streams == [] && sends == []
      ensures this.client == client && nextClient == client + 1 && flags == UNSET && forall k :: k in EVERY_KIND ==> tokens[k] == []
    {
      this.client, closingClient, nextClient := client, None, client + 1;
      flags := UNSET;
      tokens := map[Accept := [], Connect := [], Lookup := []];
      sends, streams, closing, issued := [], [], false, {};
    }

    /** `accept_parts`, `connect_parts`, `lookup_parts`: nothing while closing, else
    the client and a new token. */
    method Parts(kind: Kind) returns (parts: Option<(nat, Token)>)
      requires Valid()
      modifies this`flags, this`tokens, this`issued
      ensures Valid() && kind in EVERY_KIND
      ensures closing ==> parts == None && issued == old(issued) && tokens == old(tokens)
      ensures flags == if closing then old(flags) else old(flags)[kind := false]
      ensures !closing ==> (
                && parts.Some? && parts.value.0 == client && fresh(parts.value.1) && !parts.value.1.cancelled && parts.value.1.held
                && issued == old(issued) + {parts.value.1}
                && tokens[kind] == old(tokens)[kind] + [parts.value.1]
                && (forall k :: k in EVERY_KIND && k != kind ==> tokens[k] == old(tokens)[k]))
    {
      EveryKindListed(kind);
      if closing {
        return None;
      }
      flags := flags[kind := false];
      var token := new Token();
      tokens := tokens[kind := tokens[kind] + [token]];
      issued := issued + {token};
      parts := Some((client, token));
    }

    /** `cancel_accept`, `cancel_connect`, `cancel_lookup`: exactly the tracked
    tokens of the kind that are still held are cancelled, and stay tracked. */
    method Cancel(kind: Kind)
      requires Valid()
      modifies this`flags, this`tokens, issued
      ensures Valid()
      ensures forall t :: t in issued ==>
                t.held == old(t.held) && t.cancelled == (old(t.cancelled) || (t.held && t in old(tokens)[kind]))
      ensures forall t :: t in tokens[kind] <==> t in old(tokens)[kind] && t.held
      ensures forall k :: k in EVERY_KIND && k != kind ==> tokens[k] == old(tokens)[k]
      ensures flags == old(flags)[kind := true]
    {
      flags := flags[kind := true];
      var kept := CancelTokens(tokens[kind]);
      tokens := tokens[kind := kept];
    }

    method CancelSends()
      modifies this`sends, sends
      ensures sends == [] && forall h :: h in old(sends) ==> h.aborted
    {
      for i := 0 to |sends|
        invariant sends == old(sends)
        invariant forall j :: 0 <= j < i ==> sends[j].aborted
      {
        sends[i].aborted := true;
      }
      sends := [];
    }

    method CancelEveryKind()
      requires Valid()
      modifies this`flags, this`tokens, issued
      ensures Valid()
      ensures forall t :: t in issued ==>
                t.held == old(t.held) && t.cancelled == (old(t.cancelled) || (t.held && AnyKind(old(tokens), t)))
      ensures forall t :: t in tokens[Accept] <==> t in old(tokens)[Accept] && t.held
      ensures forall t :: t in tokens[Connect] <==> t in old(tokens)[Connect] && t.held
      ensures forall t :: t in tokens[Lookup] <==> t in old(tokens)[Lookup] && t.held
      ensures flags == ALL_SET
    {
      ghost var before := tokens;
      AllThreeSet(flags);
      Cancel(Accept);
      Cancel(Connect);
      Cancel(Lookup);
      forall t: Token ensures AnyKind(before, t) <==> t in before[Accept] || t in before[Connect] || t in before[Lookup] {
        InOneKind(before, t);
      }
    }

    /** From here on nothing is handed out; all that is tracked and held is
    cancelled, and every send task is aborted. */
    method BeginClosing()
      requires Valid()
      modifies this`closing, this`flags, this`tokens, this`sends, issued, sends
      ensures Valid() && closing
      ensures forall t :: t in issued ==>
                t.held == old(t.held) && t.cancelled == (old(t.cancelled) || (t.held && AnyKind(old(tokens), t)))
      ensures forall t :: t in tokens[Accept] <==> t in old(tokens)[Accept] && t.held
      ensures forall t :: t in tokens[Connect] <==> t in old(tokens)[Connect] && t.held
      ensures forall t :: t in tokens[Lookup] <==> t in old(tokens)[Lookup] && t.held
      ensures flags == ALL_SET
      ensures sends == [] && forall h :: h in old(sends) ==> h.aborted
    {
      closing := true;
      CancelSends();
      CancelEveryKind();
    }

    /** Close, and give the original client and every registered stream. */
    method ShutdownParts() returns (registered: seq<nat>, original: nat)
      requires Valid()
      modifies this`closing, this`flags, this`tokens, this`sends, this`client, this`closingClient, this`nextClient, issued, sends
      ensures Valid() && closing
      ensures forall t :: t in issued ==>
                t.held == old(t.held) && t.cancelled == (old(t.cancelled) || (t.held && AnyKind(old(tokens), t)))
      ensures forall t :: t in tokens[Accept] <==> t in old(tokens)[Accept] && t.held
      ensures forall t :: t in tokens[Connect] <==> t in old(tokens)[Connect] && t.held
      ensures forall t :: t in tokens[Lookup] <==> t in old(tokens)[Lookup] && t.held
      ensures flags == ALL_SET
      ensures sends == [] && forall h :: h in old(sends) ==> h.aborted
      ensures registered == streams && original == old(closingClient).GetOr(old(client)) && closingClient == Some(original)
      ensures if old(closingClient).Some? then client == old(client) && nextClient == old(nextClient)
              else client == old(nextClient) && nextClient == old(nextClient) + 1
    {
      BeginClosing();
      registered := streams;
      if closingClient.None? {
        closingClient := Some(client);
        client := nextClient;
        nextClient := nextClient + 1;
      }
      original := closingClient.value;
    }

    method RegisterStream(stream: nat)
      modifies this`streams
      ensures streams == old(streams) + [stream]
    {
      streams := streams + [stream];
    }

    method TrackSend() returns (handle: Handle)
      modifies this`sends
      ensures fresh(handle) && sends == old(sends) + [handle]
    {
      handle := new Handle();
      sends := sends + [handle];
    }

    /** Streams, tokens and the closing client are forgotten; `closing` stays. */
    method ClearShutdownState()
      requires Valid()
      modifies this`streams, this`tokens, this`sends, this`closingClient
      ensures Valid() && streams == [] && closingClient == None && sends == [] && forall k :: k in EVERY_KIND ==> tokens[k] == []
    {
      streams, sends := [], [];
      tokens := map[Accept := [], Connect := [], Lookup := []];
      closingClient := None;
    }
  }

  // ---------- one owner ----------

  /** The token is tracked under its kind alone, exactly when the entry says so. */
  ghost predicate TrackedAs(tokens: map<Kind, seq<Token>>, t: Token, e: Entry) {
    && (forall k :: k in tokens && t in tokens[k] ==> k == e.kind && e.tracked)
    && (e.held && e.tracked && e.kind in tokens ==> t in tokens[e.kind])
  }

  /** Tracking one token more changes nothing for the others. */
  lemma TrackedStill(before: map<Kind, seq<Token>>, after: map<Kind, seq<Token>>, token: Token, kind: Kind, t: Token, e: Entry)
    requires TrackedAs(before, t, e) && t != token && before.Keys == after.Keys == EVERY_KIND && kind in EVERY_KIND
    requires after[kind] == before[kind] + [token]
    requires forall k :: k in EVERY_KIND && k != kind ==> after[k] == before[k]
    ensures TrackedAs(after, t, e)
  {
  }

  /** The one owner of a runtime, with every token it was given. */
  class Owner {
    const runtime: Runtime
    var handed: seq<Token>

    /** The runtime and the tokens are as the book says. */
    ghost predicate Reflects(b: Book)
      reads this, runtime, handed
    {
      && runtime.Valid() && SameRuntime(b)
      && |handed| == |b.tokens|
      && (forall t :: t in runtime.issued ==> t in handed)
      && (forall i :: 0 <= i < |handed| ==> handed[i] in runtime.issued)
      && (forall i, j :: 0 <= i < j < |handed| ==> handed[i] != handed[j])
      && (forall i :: 0 <= i < |handed| ==> Shows(i, b.tokens[i]))
    }

    ghost predicate SameRuntime(b: Book)
      reads runtime
    {
      && runtime.flags == b.flags && runtime.closing == b.closing && runtime.client == b.client && runtime.nextClient == b.nextClient
      && runtime.closingClient == b.closingClient && runtime.streams == b.streams
    }

    /** Token number `i` has the flags of the entry; while it is held the runtime
    tracks it, under its kind alone, exactly when the entry says so. */
    ghost predicate Shows(i: nat, e: Entry)
      requires i < |handed|
      reads this, runtime, handed
    {
      && handed[i].held == e.held && handed[i].cancelled == e.cancelled
      && TrackedAs(runtime.tokens, handed[i], e)
    }

    constructor (client: nat)
      ensures Reflects(NewBook(client))
      ensures fresh(runtime) && fresh(runtime.issued) && runtime.sends == []
    {
      runtime := new Runtime(client);
      handed := [];
    }

    method HandOut(kind: Kind, ghost b: Book)
      requires Reflects(b)
      modifies this`handed, runtime`flags, runtime`tokens, runtime`issued
      ensures Reflects(Record(b, Op.HandOut(kind))) && fresh(runtime.issued - old(runtime.issued))
    {
      var parts := runtime.Parts(kind);
      if parts.Some? {
        forall i | 0 <= i < |handed| ensures Shows(i, b.tokens[i]) {
          assert old(Shows(i, b.tokens[i])) && handed[i] != parts.value.1;
          TrackedStill(old(runtime.tokens), runtime.tokens, parts.value.1, kind, handed[i], b.tokens[i]);
        }
        Keep(parts.value.1, kind, b.(flags := b.flags[kind := false]));
      }
    }

    /** The runtime has given a token that is not in the book yet. */
    ghost predicate ReflectsBut(b: Book, token: Token, kind: Kind)
      reads this, runtime, handed, token
    {
      && runtime.Valid() && SameRuntime(b) && |handed| == |b.tokens|
      && (forall t :: t in runtime.issued ==> t in handed || t == token)
      && token in runtime.issued && (forall i :: 0 <= i < |handed| ==> handed[i] in runtime.issued)
      && (forall i, j :: 0 <= i < j < |handed| ==> handed[i] != handed[j])
      && (forall i :: 0 <= i < |handed| ==> Shows(i, b.tokens[i]))
      && token !in handed && token.held && !token.cancelled
      && (forall k :: k in runtime.tokens ==> (token in runtime.tokens[k] <==> k == kind))
    }

    method Keep(token: Token, kind: Kind, ghost b: Book)
      requires ReflectsBut(b, token, kind)
      modifies this`handed
      ensures Reflects(b.(tokens := b.tokens + [Entry(kind, true, false, true)]))
    {
      handed := handed + [token];
      ghost var tokens := b.tokens + [Entry(kind, true, false, true)];
      forall i | 0 <= i < |handed| ensures Shows(i, tokens[i]) {
        assert i < |b.tokens| ==> old(Shows(i, b.tokens[i])) && handed[i] == old(handed[i]);
      }
    }

    method EndTask(index: nat, ghost b: Book)
      requires Reflects(b)
      modifies handed
      ensures Reflects(Record(b, Op.EndTask(index)))
    {
      if index < |handed| {
        handed[index].Drop();
        ghost var after := Record(b, Op.EndTask(index));
        forall i | 0 <= i < |handed| ensures Shows(i, after.tokens[i]) {
          assert i != index ==> handed[i] != handed[index];
        }
      }
    }

    method CancelKind(kind: Kind, ghost b: Book)
      requires Reflects(b)
      modifies runtime`flags, runtime`tokens, runtime.issued
      ensures Reflects(Record(b, Op.CancelKind(kind)))
    {
      EveryKindListed(kind);
      runtime.Cancel(kind);
      ghost var after := Record(b, Op.CancelKind(kind));
      forall i | 0 <= i < |handed| ensures Shows(i, after.tokens[i]) {
        assert old(Shows(i, b.tokens[i]));
        assert after.tokens[i] == CancelEntry(b.tokens[i], {kind});
        EveryKindListed(b.tokens[i].kind);
      }
    }

    /** What closing does to the tokens, as seen by the owner. */
    lemma ClosedTokens(b: Book, before: map<Kind, seq<Token>>, i: nat)
      requires i < |handed| == |b.tokens| && before.Keys == EVERY_KIND
      requires forall k :: k in before && handed[i] in before[k] ==> k == b.tokens[i].kind && b.tokens[i].tracked
      requires b.tokens[i].kind in before && (b.tokens[i].held && b.tokens[i].tracked ==> handed[i] in before[b.tokens[i].kind])
      ensures b.tokens[i].held ==> (AnyKind(before, handed[i]) <==> b.tokens[i].tracked)
    {
    }

    lemma HeldAreCancelled(b: Book)
      requires Reflects(b) && AllCancelled(b)
      ensures forall i :: 0 <= i < |handed| && handed[i].held ==> handed[i].cancelled
    {
      forall i | 0 <= i < |handed| ensures handed[i].held ==> handed[i].cancelled {
        assert Shows(i, b.tokens[i]);
      }
    }

    method Close(ghost b: Book)
      requires Reflects(b)
      modifies runtime`closing, runtime`flags, runtime`tokens, runtime`sends, runtime.issued, runtime.sends
      ensures Reflects(Record(b, Op.Close)) && runtime.sends == []
    {
      ghost var before := runtime.tokens;
      runtime.BeginClosing();
      ghost var after := Record(b, Op.Close);
      forall i | 0 <= i < |handed| ensures Shows(i, after.tokens[i]) {
        assert old(Shows(i, b.tokens[i]));
        EveryKindListed(b.tokens[i].kind);
        ClosedTokens(b, before, i);
        assert after.tokens[i] == CancelEntry(b.tokens[i], EVERY_KIND);
      }
    }

    method Shutdown(ghost b: Book) returns (given: (seq<nat>, nat))
      requires Reflects(b)
      modifies runtime`closing, runtime`flags, runtime`tokens, runtime`sends, runtime`client, runtime`closingClient,
               runtime`nextClient, runtime.issued, runtime.sends
      ensures Reflects(Record(b, Op.Shutdown)) && runtime.sends == [] && given == ShutdownGives(b)
    {
      ghost var before := runtime.tokens;
      var streams, original := runtime.ShutdownParts();
      given := (streams, original);
      ghost var after := Record(b, Op.Shutdown);
      forall i | 0 <= i < |handed| ensures Shows(i, after.tokens[i]) {
        assert old(Shows(i, b.tokens[i]));
        EveryKindListed(b.tokens[i].kind);
        ClosedTokens(b, before, i);
        assert after.tokens[i] == CancelEntry(b.tokens[i], EVERY_KIND);
      }
    }

    method Clear(ghost b: Book)
      requires Reflects(b)
      modifies runtime`streams, runtime`tokens, runtime`sends, runtime`closingClient
      ensures Reflects(Record(b, Op.Clear)) && runtime.sends == []
    {
      runtime.ClearShutdownState();
      ghost var after := Record(b, Op.Clear);
      forall i | 0 <= i < |handed| ensures Shows(i, after.tokens[i]) {
        assert old(Shows(i, b.tokens[i]));
        assert after.tokens[i] == b.tokens[i].(tracked := false);
      }
    }

    method Register(stream: nat, ghost b: Book)
      requires Reflects(b)
      modifies runtime`streams
      ensures Reflects(Record(b, Op.Register(stream)))
    {
      runtime.RegisterStream(stream);
    }

    method SendTask(ghost b: Book)
      requires Reflects(b)
      modifies runtime`sends
      ensures Reflects(b) && forall j :: 0 <= j < |runtime.sends| ==> runtime.sends[j] in old(runtime.sends) || fresh(runtime.sends[j])
    {
      var _ := runtime.TrackSend();
    }

    /** One operation: the runtime and every token end as the book says. */
    method Do(op: Op, ghost b: Book) returns (given: seq<(seq<nat>, nat)>)
      requires Reflects(b)
      modifies this`handed, handed, runtime, runtime.issued, runtime.sends
      ensures Reflects(Record(b, op)) && given == if op.Shutdown? then [ShutdownGives(b)] else []
      ensures fresh(runtime.issued - old(runtime.issued))
      ensures forall j :: 0 <= j < |runtime.sends| ==> runtime.sends[j] in old(runtime.sends) || fresh(runtime.sends[j])
    {
      given := [];
      match op
      case HandOut(kind) => HandOut(kind, b);
      case EndTask(index) => EndTask(index, b);
      case CancelKind(kind) => CancelKind(kind, b);
      case Close => Close(b);
      case Shutdown =>
        var result := Shutdown(b);
        given := [result];
      case Register(stream) => Register(stream, b);
      case SendTask => SendTask(b);
      case Clear => Clear(b);
    }
  }

  /** The operation after the first `i` of a script. */
  method DoNext(owner: Owner, client: nat, ops: seq<Op>, i: nat) returns (given: seq<(seq<nat>, nat)>)
    requires i < |ops| && owner.Reflects(BookAfter(client, ops[..i]))
    modifies owner`handed, owner.runtime, owner.runtime.issued, owner.runtime.sends
    ensures owner.Reflects(BookAfter(client, ops[..i + 1]))
    ensures Shutdowns(client, ops[..i + 1]) == Shutdowns(client, ops[..i]) + given
    ensures fresh(owner.runtime.issued - old(owner.runtime.issued))
    ensures forall j :: 0 <= j < |owner.runtime.sends| ==>
              owner.runtime.sends[j] in old(owner.runtime.sends) || fresh(owner.runtime.sends[j])
  {
    BookSnoc(client, ops, i);
    given := owner.Do(ops[i], BookAfter(client, ops[..i]));
  }

  lemma BookSnoc(client: nat, ops: seq<Op>, i: nat)
    requires i < |ops|
    ensures BookAfter(client, ops[..i + 1]) == Record(BookAfter(client, ops[..i]), ops[i])
    ensures Shutdowns(client, ops[..i + 1]) ==
            Shutdowns(client, ops[..i]) + if ops[i].Shutdown? then [ShutdownGives(BookAfter(client, ops[..i]))] else []
  {
    assert ops[..i + 1][..i] == ops[..i];
  }

  method DoAll(client: nat, ops: seq<Op>) returns (owner: Owner, given: seq<(seq<nat>, nat)>)
    ensures owner.Reflects(BookAfter(client, ops)) && given == Shutdowns(client, ops)
  {
    owner := new Owner(client);
    given := [];
    for i := 0 to |ops|
      invariant owner.Reflects(BookAfter(client, ops[..i])) && given == Shutdowns(client, ops[..i])
      invariant fresh(owner) && fresh(owner.runtime) && fresh(owner.runtime.issued)
      invariant forall j :: 0 <= j < |owner.runtime.sends| ==> fresh(owner.runtime.sends[j])
    {
      var answer := DoNext(owner, client, ops, i);
      given := given + answer;
    }
    assert ops[..|ops|] == ops;
  }

  /** Any run by one owner: the runtime, every token and every answer of a shutdown
  are those of the book. When no clear comes before a close, every token still
  held once closing has begun is cancelled. */
  method Run(client: nat, ops: seq<Op>) returns (owner: Owner, given: seq<(seq<nat>, nat)>)
    ensures owner.Reflects(BookAfter(client, ops)) && given == Shutdowns(client, ops)
    ensures owner.runtime.closing <==> ClosedBefore(ops, |ops|)
    ensures NoEarlyClear(ops) && owner.runtime.closing ==> forall i :: 0 <= i < |owner.handed| && owner.handed[i].held ==> owner.handed[i].cancelled
  {
    owner, given := DoAll(client, ops);
    ClosedOutcome(owner, client, ops);
  }

  lemma ClosedOutcome(owner: Owner, client: nat, ops: seq<Op>)
    requires owner.Reflects(BookAfter(client, ops))
    ensures owner.runtime.closing <==> ClosedBefore(ops, |ops|)
    ensures NoEarlyClear(ops) && owner.runtime.closing ==> forall i :: 0 <= i < |owner.handed| && owner.handed[i].held ==> owner.handed[i].cancelled
  {
    ClosingMeansClosed(client, ops);
    if NoEarlyClear(ops) && owner.runtime.closing {
      ShutsDownForGood(client, ops);
      owner.HeldAreCancelled(BookAfter(client, ops));
    }
  }
}
