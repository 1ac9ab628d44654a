/** The rendezvous handshake: a request, an encrypted answer that issues a call
secret, and a proof of that secret bound to caller and receiver.

Random values are arguments. Diffie-Hellman, hash, cipher, MAC and the text form
of the wire records (JSON in base64) are parameters, used only through `Ideal`;
a record whose fields are not base64 counts as one that cannot be read. */
module Rendezvous {
  import opened Wrappers
  import opened Octets
  import opened Text
  import opened Encoding
  import opened Addresses

  const REQUEST_PREFIX: string := "COMMTOOLS-I2P-RENDEZVOUS-REQUEST-v1:"
  const RESPONSE_PREFIX: string := "COMMTOOLS-I2P-RENDEZVOUS-RESPONSE-v1:"
  const AUTH_PREFIX: string := "__SIGNAL__:RENDEZVOUS-AUTH-v1:"
  const KDF_DOMAIN: string := "COMMTOOLS-I2P-RENDEZVOUS-RESPONSE-KDF-v1"
  const AUTH_DOMAIN: string := "COMMTOOLS-I2P-RENDEZVOUS-AUTH-v1"
  const VALIDITY_MS: nat := 15 * 60 * 1000
  const MAX_SKEW_MS: nat := 5 * 60 * 1000
  const MAX_ENCODED: nat := 16 * 1024
  const ID_OCTETS: nat := 16
  const KEY_OCTETS: nat := 32
  const NONCE_OCTETS: nat := 24

  datatype WireFormat = RequestFormat | ResponseFormat | PayloadFormat | OtherFormat

  datatype RequestWire = RequestWire(
    format: WireFormat, requestId: string, publicKey: string, createdMs: U64, expiresMs: U64, nonce: string)
  datatype ResponseWire = ResponseWire(
    format: WireFormat, requestId: string, publicKey: string, nonce: string, ciphertext: string)
  datatype Payload = Payload(
    format: WireFormat, requestId: string, destination: string, callSecret: string, expiresMs: U64)
  datatype AuthProof = AuthProof(requestId: string, nonce: string, mac: string)

  datatype Pending = Pending(requestId: string, privateKey: string, nonce: string, expiresMs: U64)
  datatype IssuedState = Available | Reserved | Consumed | Revoked
  datatype Issued = Issued(requestId: string, callSecret: string, expiresMs: U64, state: IssuedState)
  datatype Outgoing = Outgoing(requestId: string, callSecret: string, destination: string, expiresMs: U64)

  datatype Primitives = Primitives(
    publicOf: string -> string,
    shared: (string, string) -> string,                     // own private, their public
    hash: string -> string,
    seal: (string, string, string) -> string,               // key, nonce, plaintext
    unseal: (string, string, string) -> Option<string>,
    mac: (string, string) -> string,                        // secret, message
    showRequest: RequestWire -> string, readRequest: string -> Option<RequestWire>,
    showResponse: ResponseWire -> string, readResponse: string -> Option<ResponseWire>,
    showPayload: Payload -> string, readPayload: string -> Option<Payload>,
    showProof: AuthProof -> string, readProof: string -> Option<AuthProof>)

  ghost predicate Ideal(p: Primitives) {
    && (forall a, b :: p.shared(a, p.publicOf(b)) == p.shared(b, p.publicOf(a)))
    && (forall a :: |p.publicOf(a)| == KEY_OCTETS)
    && (forall k, n, x :: p.unseal(k, n, p.seal(k, n, x)) == Some(x))
    && (forall k, m :: |p.mac(k, m)| == KEY_OCTETS)
    && (forall r :: p.readRequest(p.showRequest(r)) == Some(r) && NoSpace(p.showRequest(r)))
    && (forall r :: p.readResponse(p.showResponse(r)) == Some(r) && NoSpace(p.showResponse(r)))
    && (forall r :: p.readPayload(p.showPayload(r)) == Some(r))
    && (forall r :: p.readProof(p.showProof(r)) == Some(r))
  }

  // ---------- the laws can be met ----------

  function FormatText(f: WireFormat): string {
    match f
    case RequestFormat => "request"
    case ResponseFormat => "response"
    case PayloadFormat => "payload"
    case OtherFormat => "other"
  }

  function RequestTexts(r: RequestWire): seq<string> {
    [FormatText(r.format), r.requestId, r.publicKey, Dec(r.createdMs), Dec(r.expiresMs), r.nonce]
  }

  function ResponseTexts(r: ResponseWire): seq<string> {
    [FormatText(r.format), r.requestId, r.publicKey, r.nonce, r.ciphertext]
  }

  function PayloadTexts(r: Payload): seq<string> {
    [FormatText(r.format), r.requestId, r.destination, r.callSecret, Dec(r.expiresMs)]
  }

  function ProofTexts(r: AuthProof): seq<string> {
    [r.requestId, r.nonce, r.mac]
  }

  lemma FormatTextInjective(a: WireFormat, b: WireFormat)
    requires FormatText(a) == FormatText(b)
    ensures a == b
  {
    assert "request"[2] != "response"[2] && "request"[0] != "payload"[0] && "request"[0] != "other"[0];
    assert "response"[0] != "payload"[0] && "response"[0] != "other"[0] && "payload"[0] != "other"[0];
  }

  lemma RequestTextsInjective(a: RequestWire, b: RequestWire)
    ensures Listed(RequestTexts(a)) == Listed(RequestTexts(b)) <==> a == b
  {
    var x, y := RequestTexts(a), RequestTexts(b);
    ListedInjective(x, y);
    if x == y {
      assert x[0] == y[0] && x[1] == y[1] && x[2] == y[2] && x[3] == y[3] && x[4] == y[4] && x[5] == y[5];
      FormatTextInjective(a.format, b.format);
      DecInjective(a.createdMs, b.createdMs);
      DecInjective(a.expiresMs, b.expiresMs);
    }
  }

  lemma ResponseTextsInjective(a: ResponseWire, b: ResponseWire)
    ensures Listed(ResponseTexts(a)) == Listed(ResponseTexts(b)) <==> a == b
  {
    var x, y := ResponseTexts(a), ResponseTexts(b);
    ListedInjective(x, y);
    if x == y {
      assert x[0] == y[0] && x[1] == y[1] && x[2] == y[2] && x[3] == y[3] && x[4] == y[4];
      FormatTextInjective(a.format, b.format);
    }
  }

  lemma PayloadTextsInjective(a: Payload, b: Payload)
    ensures Listed(PayloadTexts(a)) == Listed(PayloadTexts(b)) <==> a == b
  {
    var x, y := PayloadTexts(a), PayloadTexts(b);
    ListedInjective(x, y);
    if x == y {
      assert x[0] == y[0] && x[1] == y[1] && x[2] == y[2] && x[3] == y[3] && x[4] == y[4];
      FormatTextInjective(a.format, b.format);
      DecInjective(a.expiresMs, b.expiresMs);
    }
  }

  lemma ProofTextsInjective(a: AuthProof, b: AuthProof)
    ensures Listed(ProofTexts(a)) == Listed(ProofTexts(b)) <==> a == b
  {
    var x, y := ProofTexts(a), ProofTexts(b);
    ListedInjective(x, y);
    if x == y {
      assert x[0] == y[0] && x[1] == y[1] && x[2] == y[2];
    }
  }

  ghost function ReadRequestText(code: string): Option<RequestWire> {
    if exists r :: Listed(RequestTexts(r)) == code then
      var r :| Listed(RequestTexts(r)) == code;
      Some(r)
    else None
  }

  ghost function ReadResponseText(code: string): Option<ResponseWire> {
    if exists r :: Listed(ResponseTexts(r)) == code then
      var r :| Listed(ResponseTexts(r)) == code;
      Some(r)
    else None
  }

  ghost function ReadPayloadText(code: string): Option<Payload> {
    if exists r :: Listed(PayloadTexts(r)) == code then
      var r :| Listed(PayloadTexts(r)) == code;
      Some(r)
    else None
  }

  ghost function ReadProofText(code: string): Option<AuthProof> {
    if exists r :: Listed(ProofTexts(r)) == code then
      var r :| Listed(ProofTexts(r)) == code;
      Some(r)
    else None
  }

  /** A ciphertext opens under no key but its own. */
  ghost predicate OwnKeyOnly(p: Primitives) {
    forall k, k', n, x :: p.unseal(k', n, p.seal(k, n, x)).Some? ==> k' == k
  }

  /** The laws exclude nothing: there are primitives that meet them all. */
  lemma IdealIsMet() returns (p: Primitives)
    ensures Ideal(p) && OwnKeyOnly(p) && forall a, b :: |p.shared(a, b)| == KEY_OCTETS
  {
    p := Primitives(
      _ => Zeros(KEY_OCTETS),
      (a, b) => Zeros(KEY_OCTETS),
      m => m,
      (key, nonce, x) => SealOpenly(key, nonce, x),
      (key, nonce, c) => UnsealOpenly(key, nonce, c),
      (key, m) => Zeros(KEY_OCTETS),
      r => Listed(RequestTexts(r)), code => ReadRequestText(code),
      r => Listed(ResponseTexts(r)), code => ReadResponseText(code),
      r => Listed(PayloadTexts(r)), code => ReadPayloadText(code),
      r => Listed(ProofTexts(r)), code => ReadProofText(code));
    forall k, k', n, x
      ensures p.unseal(k, n, p.seal(k, n, x)) == Some(x)
      ensures p.unseal(k', n, p.seal(k, n, x)).Some? ==> k' == k
    {
      OpenCipherLaws(k, n, x, k');
    }
    forall r ensures p.readRequest(p.showRequest(r)) == Some(r) && NoSpace(p.showRequest(r)) {
      RequestTextsInjective(r, ReadRequestText(p.showRequest(r)).value);
      ListedPlain(RequestTexts(r));
    }
    forall r ensures p.readResponse(p.showResponse(r)) == Some(r) && NoSpace(p.showResponse(r)) {
      ResponseTextsInjective(r, ReadResponseText(p.showResponse(r)).value);
      ListedPlain(ResponseTexts(r));
    }
    forall r ensures p.readPayload(p.showPayload(r)) == Some(r) {
      PayloadTextsInjective(r, ReadPayloadText(p.showPayload(r)).value);
    }
    forall r ensures p.readProof(p.showProof(r)) == Some(r) {
      ProofTextsInjective(r, ReadProofText(p.showProof(r)).value);
    }
  }

  datatype Error =
    | Unreadable | WrongFormat | WrongLength | FromTheFuture | Expired | BadLifetime
    | OtherRequest | NotAuthentic | NotAvailable

  // ---------- length-prefixed fields ----------

  /** One field: its length as a truncated 32-bit number, then its octets. */
  function Field(value: string): string {
    BigEndian(|value|, 4) + value
  }

  function Transcript(requestId: string, nonce: string, caller: string, receiver: string): string {
    Field(AUTH_DOMAIN) + (Field(requestId) + (Field(nonce) + (Field(Lower(caller)) + Field(Lower(receiver)))))
  }

  function KeyMaterial(shared: string, requestId: string, nonce: string): string {
    Field(KDF_DOMAIN) + (Field(shared) + (Field(requestId) + Field(nonce)))
  }

  method AppendField(buffer: string, value: string) returns (longer: string)
    ensures longer == buffer + Field(value)
  {
    longer := buffer + BigEndian(|value|, 4);
    longer := longer + value;
  }

  /** The transcript, appended field by field. */
  method AuthTranscript(requestId: string, nonce: string, caller: string, receiver: string) returns (transcript: string)
    ensures transcript == Transcript(requestId, nonce, caller, receiver)
  {
    transcript := AppendField([], AUTH_DOMAIN);
    transcript := AppendField(transcript, requestId);
    transcript := AppendField(transcript, nonce);
    transcript := AppendField(transcript, Lower(caller));
    transcript := AppendField(transcript, Lower(receiver));
    Regroup(Field(AUTH_DOMAIN), Field(requestId), Field(nonce), Field(Lower(caller)), Field(Lower(receiver)));
  }

  method DeriveMaterial(shared: string, requestId: string, nonce: string) returns (material: string)
    ensures material == KeyMaterial(shared, requestId, nonce)
  {
    material := AppendField([], KDF_DOMAIN);
    material := AppendField(material, shared);
    material := AppendField(material, requestId);
    material := AppendField(material, nonce);
    Regroup([], Field(KDF_DOMAIN), Field(shared), Field(requestId), Field(nonce));
  }

  lemma Regroup(a: string, b: string, c: string, d: string, e: string)
    ensures [] + a + b + c + d + e == a + (b + (c + (d + e)))
  {
  }

  /** A field can be told from what follows it. */
  lemma FieldInjective(a: string, x: string, b: string, y: string)
    requires |a| <= U32_MAX && |b| <= U32_MAX
    requires Field(a) + x == Field(b) + y
    ensures a == b && x == y
  {
    var s, t := Field(a) + x, Field(b) + y;
    RadixValues();
    BigEndianRoundTrip(|a|, 4);
    BigEndianRoundTrip(|b|, 4);
    assert s[..4] == BigEndian(|a|, 4) && t[..4] == BigEndian(|b|, 4);
    assert |a| == |b|;
    assert s[4..4 + |a|] == a && t[4..4 + |b|] == b;
    assert s[4 + |a|..] == x && t[4 + |b|..] == y;
  }

  ghost predicate IsId(s: string) {
    |s| == ID_OCTETS
  }

  /** A transcript fixes the request, the nonce, and both addresses up to case:
  nothing can be moved from one field to the next. */
  lemma TranscriptInjective(id: string, nonce: string, caller: string, receiver: string,
                            id': string, nonce': string, caller': string, receiver': string)
    requires IsId(id) && IsId(id') && IsId(nonce) && IsId(nonce')
    requires |caller| <= U32_MAX && |caller'| <= U32_MAX
    ensures Transcript(id, nonce, caller, receiver) == Transcript(id', nonce', caller', receiver') <==>
            id == id' && nonce == nonce' && SameIgnoringCase(caller, caller') && SameIgnoringCase(receiver, receiver')
  {
    SameIgnoringCaseIffLowerEqual(caller, caller');
    SameIgnoringCaseIffLowerEqual(receiver, receiver');
    if Transcript(id, nonce, caller, receiver) == Transcript(id', nonce', caller', receiver') {
      var c, r, c', r' := Lower(caller), Lower(receiver), Lower(caller'), Lower(receiver');
      FieldInjective(AUTH_DOMAIN, Field(id) + (Field(nonce) + (Field(c) + Field(r))),
                     AUTH_DOMAIN, Field(id') + (Field(nonce') + (Field(c') + Field(r'))));
      FieldInjective(id, Field(nonce) + (Field(c) + Field(r)), id', Field(nonce') + (Field(c') + Field(r')));
      FieldInjective(nonce, Field(c) + Field(r), nonce', Field(c') + Field(r'));
      FieldInjective(c, Field(r), c', Field(r'));
      assert Field(r)[4..] == r && Field(r')[4..] == r';
    }
  }

  lemma LengthWraps(n: nat, m: nat, k: nat)
    requires n == m + k * (U32_MAX + 1)
    ensures BigEndian(n, 4) == BigEndian(m, 4)
  {
    RadixValues();
    BigEndianWraps(m, k, 4);
  }

  lemma Shifted(size: string, a: string, b: string, c: string, r: string)
    ensures (size + (a + b + c)) + (b + r) == (size + a) + (b + (c + b + r))
  {
  }

  /** Four octets inside a value can serve as the length of the next one, when
  the length of the value wraps. */
  lemma FieldsWrap(a: string, b: string, c: string, r: string, k: nat)
    requires b == BigEndian(|r|, 4) && |b| + |c| == k * (U32_MAX + 1)
    ensures Field(a + b + c) + Field(r) == Field(a) + Field(c + b + r)
  {
    LengthWraps(|a + b + c|, |a|, k);
    LengthWraps(|c + b + r|, |r|, k);
    Shifted(BigEndian(|a|, 4), a, b, c, r);
  }

  lemma LowerConcat(a: string, b: string)
    ensures Lower(a + b) == Lower(a) + Lower(b)
  {
  }

  lemma CutInThree(s: string, i: nat, j: nat)
    requires i <= j <= |s|
    ensures s == s[..i] + s[i..j] + s[j..]
  {
  }

  lemma LowerParts(s: string, i: nat, j: nat)
    requires i <= j <= |s| && Lower(s) == s
    ensures Lower(s[..i]) == s[..i] && Lower(s[i..j]) == s[i..j] && Lower(s[j..]) == s[j..]
  {
    forall k | 0 <= k < |s| ensures LowerChar(s[k]) == s[k] {
      assert Lower(s)[k] == s[k];
    }
  }

  /** The bound on callers is needed: a length is cut to 32 bits, so for every
  longer caller there are a receiver and another pair with the same transcript. */
  lemma HugeCallerCollides(id: string, nonce: string, caller: string)
    returns (receiver: string, caller': string, receiver': string)
    requires |caller| > U32_MAX && IsOctets(caller)
    ensures Transcript(id, nonce, caller, receiver) == Transcript(id, nonce, caller', receiver')
    ensures |caller'| <= U32_MAX
  {
    var k, m := WrappedLength(|caller|);
    var low := Lower(caller);
    LowerIdempotent(caller);
    LowerParts(low, m, m + 4);
    CutInThree(low, m, m + 4);
    caller' := low[..m];
    receiver, receiver' := CollidingParts(id, nonce, low[..m], low[m..m + 4], low[m + 4..], k);
  }

  lemma WrappedLength(n: nat) returns (k: nat, m: nat)
    requires n > U32_MAX
    ensures n == m + k * (U32_MAX + 1) && m <= U32_MAX && m + 4 <= n
  {
    k, m := n / (U32_MAX + 1), n % (U32_MAX + 1);
  }

  /** A caller of three parts, in lower case, whose length wraps to that of the first. */
  lemma CollidingParts(id: string, nonce: string, a: string, b: string, c: string, k: nat) returns (receiver: string, receiver': string)
    requires |b| == 4 && IsOctets(b) && |b| + |c| == k * (U32_MAX + 1)
    requires Lower(a) == a && Lower(b) == b && Lower(c) == c
    ensures Field(a + b + c) + Field(Lower(receiver)) == Field(a) + Field(Lower(receiver'))
  {
    receiver := Zeros(FromBigEndian(b));
    receiver' := c + b + receiver;
    assert Lower(receiver) == receiver;
    LowerConcat(c, b);
    LowerConcat(c + b, receiver);
    FromBigEndianRoundTrip(b);
    FieldsWrap(a, b, c, receiver, k);
  }

  /** A proof that was made: for which request, with which nonce, by whom, to whom. */
  datatype Made = Made(requestId: string, nonce: string, caller: string, receiver: string)

  function TranscriptOf(m: Made): string {
    Transcript(m.requestId, m.nonce, m.caller, m.receiver)
  }

  ghost predicate UpTo(m: Made, bound: nat) {
    IsId(m.requestId) && IsId(m.nonce) && |m.caller| <= bound
  }

  ghost predicate SameMade(a: Made, b: Made) {
    && a.requestId == b.requestId && a.nonce == b.nonce
    && SameIgnoringCase(a.caller, b.caller) && SameIgnoringCase(a.receiver, b.receiver)
  }

  /** Transcripts tell proofs apart for all callers up to a length. */
  ghost predicate TellsApart(bound: nat) {
    forall a: Made, b: Made :: UpTo(a, bound) && UpTo(b, bound) && TranscriptOf(a) == TranscriptOf(b) ==> SameMade(a, b)
  }

  /** Exactly up to 32 bits. */
  lemma TellsApartIff(bound: nat)
    ensures TellsApart(bound) <==> bound <= U32_MAX
  {
    if bound <= U32_MAX {
      forall a: Made, b: Made | UpTo(a, bound) && UpTo(b, bound) && TranscriptOf(a) == TranscriptOf(b)
        ensures SameMade(a, b)
      {
        TranscriptInjective(a.requestId, a.nonce, a.caller, a.receiver, b.requestId, b.nonce, b.caller, b.receiver);
      }
    } else {
      var a, b := Collision(U32_MAX + 1);
    }
  }

  /** Every address of the program is far below the bound, so between addresses a
  transcript fixes the request, the nonce, and the digests of both destinations. */
  lemma AddressTranscripts(id: string, nonce: string, caller: string, receiver: string,
                           id': string, nonce': string, caller': string, receiver': string)
    requires IsId(id) && IsId(id') && IsId(nonce) && IsId(nonce')
    requires IsDigest(caller) && IsDigest(receiver) && IsDigest(caller') && IsDigest(receiver')
    ensures Transcript(id, nonce, Address(caller), Address(receiver)) == Transcript(id', nonce', Address(caller'), Address(receiver'))
            <==> id == id' && nonce == nonce' && caller == caller' && receiver == receiver'
  {
    TranscriptInjective(id, nonce, Address(caller), Address(receiver), id', nonce', Address(caller'), Address(receiver'));
    AddressInjective(caller, caller');
    AddressInjective(receiver, receiver');
  }

  ghost predicate IsDigest(s: string) {
    |s| == DIGEST_OCTETS && IsOctets(s)
  }

  lemma Collision(length: nat) returns (a: Made, b: Made)
    requires length > U32_MAX
    ensures UpTo(a, length) && UpTo(b, length) && TranscriptOf(a) == TranscriptOf(b) && !SameMade(a, b)
  {
    var id, caller := Zeros(ID_OCTETS), Zeros(length);
    var receiver, caller', receiver' := HugeCallerCollides(id, id, caller);
    a, b := Made(id, id, caller, receiver), Made(id, id, caller', receiver');
  }

  /** Answers to different requests are encrypted under different key material. */
  lemma KeyMaterialInjective(shared: string, id: string, nonce: string, shared': string, id': string, nonce': string)
    requires |shared| == |shared'| == KEY_OCTETS && IsId(id) && IsId(id')
    ensures KeyMaterial(shared, id, nonce) == KeyMaterial(shared', id', nonce') <==>
            shared == shared' && id == id' && nonce == nonce'
  {
    if KeyMaterial(shared, id, nonce) == KeyMaterial(shared', id', nonce') {
      FieldInjective(KDF_DOMAIN, Field(shared) + (Field(id) + Field(nonce)),
                     KDF_DOMAIN, Field(shared') + (Field(id') + Field(nonce')));
      FieldInjective(shared, Field(id) + Field(nonce), shared', Field(id') + Field(nonce'));
      FieldInjective(id, Field(nonce), id', Field(nonce'));
      assert Field(nonce)[4..] == nonce && Field(nonce')[4..] == nonce';
    }
  }

  // ---------- times and texts ----------

  function SaturatingAdd(a: U64, b: U64): U64 {
    if a + b <= U64_MAX then a + b else U64_MAX
  }

  function Min(a: U64, b: U64): U64 {
    if a <= b then a else b
  }

  function ValidateTimes(createdMs: U64, expiresMs: U64, nowMs: U64): Option<Error> {
    if createdMs > SaturatingAdd(nowMs, MAX_SKEW_MS) then Some(FromTheFuture)
    else if expiresMs <= nowMs then Some(Expired)
    else if expiresMs >= createdMs && expiresMs - createdMs > VALIDITY_MS then Some(BadLifetime)
    else None
  }

  /** What a received text carries after its prefix. */
  function Unwrap(text: string, prefix: string): Option<string> {
    var trimmed := Trim(text);
    if |trimmed| > MAX_ENCODED || !(prefix <= trimmed) then None else Some(trimmed[|prefix|..])
  }

  lemma UnwrapText(prefix: string, body: string)
    requires NoSpace(prefix) && NoSpace(body) && |prefix + body| <= MAX_ENCODED
    ensures Unwrap(prefix + body, prefix) == Some(body)
  {
    TrimNothing(prefix + body);
  }

  // ---------- the five steps ----------

  function GenerateRequest(p: Primitives, nowMs: U64, private: string, id: string, nonce: string): (Pending, string) {
    var expires := SaturatingAdd(nowMs, VALIDITY_MS);
    (Pending(id, private, nonce, expires),
     REQUEST_PREFIX + p.showRequest(RequestWire(RequestFormat, id, p.publicOf(private), nowMs, expires, nonce)))
  }

  function ReadRequest(p: Primitives, text: string): Option<RequestWire> {
    match Unwrap(text, REQUEST_PREFIX)
    case None => None
    case Some(body) => p.readRequest(body)
  }

  function AnswerKey(p: Primitives, private: string, public: string, id: string, nonce: string): string {
    p.hash(KeyMaterial(p.shared(private, public), id, nonce))
  }

  function AnswerRequest(p: Primitives, text: string, destination: string, nowMs: U64,
                         private: string, secret: string, responseNonce: string): Result<(Issued, string), Error>
  {
    match ReadRequest(p, text)
    case None => Err(Unreadable)
    case Some(wire) =>
      if wire.format != RequestFormat then Err(WrongFormat)
      else if ValidateTimes(wire.createdMs, wire.expiresMs, nowMs).Some? then
        Err(ValidateTimes(wire.createdMs, wire.expiresMs, nowMs).value)
      else if |wire.requestId| != ID_OCTETS || |wire.publicKey| != KEY_OCTETS || |wire.nonce| != NONCE_OCTETS then
        Err(WrongLength)
      else
        var key := AnswerKey(p, private, wire.publicKey, wire.requestId, wire.nonce);
        var expires := Min(wire.expiresMs, SaturatingAdd(nowMs, VALIDITY_MS));
        var payload := Payload(PayloadFormat, wire.requestId, Lower(destination), secret, expires);
        var response := ResponseWire(ResponseFormat, wire.requestId, p.publicOf(private), responseNonce,
                                     p.seal(key, responseNonce, p.showPayload(payload)));
        Ok((Issued(wire.requestId, secret, expires, Available), RESPONSE_PREFIX + p.showResponse(response)))
  }

  function ReadResponse(p: Primitives, text: string): Option<ResponseWire> {
    match Unwrap(text, RESPONSE_PREFIX)
    case None => None
    case Some(body) => p.readResponse(body)
  }

  function OpenResponse(p: Primitives, text: string, pending: Pending, nowMs: U64): Result<Outgoing, Error> {
    if pending.expiresMs <= nowMs then Err(Expired)
    else
      match ReadResponse(p, text)
      case None => Err(Unreadable)
      case Some(wire) =>
        if wire.format != ResponseFormat then Err(WrongFormat)
        else if |wire.requestId| != ID_OCTETS then Err(WrongLength)
        else if wire.requestId != pending.requestId then Err(OtherRequest)
        else if |wire.publicKey| != KEY_OCTETS || |wire.nonce| != NONCE_OCTETS then Err(WrongLength)
        else
          match p.unseal(AnswerKey(p, pending.privateKey, wire.publicKey, wire.requestId, pending.nonce), wire.nonce, wire.ciphertext)
          case None => Err(NotAuthentic)
          case Some(plain) => OpenPayload(p, plain, pending, nowMs)
  }

  function OpenPayload(p: Primitives, plain: string, pending: Pending, nowMs: U64): Result<Outgoing, Error> {
    match p.readPayload(plain)
    case None => Err(Unreadable)
    case Some(payload) =>
      if payload.format != PayloadFormat then Err(WrongFormat)
      else if payload.requestId != pending.requestId then Err(OtherRequest)
      else if payload.expiresMs <= nowMs || payload.expiresMs > pending.expiresMs then Err(Expired)
      else if |payload.callSecret| != KEY_OCTETS then Err(WrongLength)
      else Ok(Outgoing(pending.requestId, payload.callSecret, payload.destination, payload.expiresMs))
  }

  function MakeAuthSignal(p: Primitives, access: Outgoing, caller: string, receiver: string, nowMs: U64, nonce: string):
    Result<string, Error>
  {
    if access.expiresMs <= nowMs then Err(Expired)
    else
      var mac := p.mac(access.callSecret, Transcript(access.requestId, nonce, caller, receiver));
      Ok(AUTH_PREFIX + p.showProof(AuthProof(access.requestId, nonce, mac)))
  }

  function ReadProof(p: Primitives, body: string): Option<AuthProof> {
    if !(AUTH_PREFIX <= body) || |body[|AUTH_PREFIX|..]| > MAX_ENCODED then None
    else p.readProof(body[|AUTH_PREFIX|..])
  }

  function VerifyAuthSignal(p: Primitives, body: string, issued: Issued, caller: string, receiver: string, nowMs: U64):
    Option<Error>
  {
    if issued.state != Available then Some(NotAvailable)
    else if issued.expiresMs <= nowMs then Some(Expired)
    else
      match ReadProof(p, body)
      case None => Some(Unreadable)
      case Some(proof) =>
        if |proof.requestId| != ID_OCTETS then Some(WrongLength)
        else if proof.requestId != issued.requestId then Some(OtherRequest)
        else if |proof.nonce| != ID_OCTETS || |proof.mac| != KEY_OCTETS then Some(WrongLength)
        else if p.mac(issued.callSecret, Transcript(proof.requestId, proof.nonce, caller, receiver)) != proof.mac then
          Some(NotAuthentic)
        else None
  }

  // ---------- lifetimes ----------

  /** An issued access never outlives 15 minutes from the answer, nor the request's
  own expiry, nor 15 minutes from the creation the request claims, and no request
  from beyond the allowed skew is answered: for any text that arrives. */
  lemma IssuedLifetime(p: Primitives, text: string, destination: string, nowMs: U64,
                       private: string, secret: string, responseNonce: string)
    requires AnswerRequest(p, text, destination, nowMs, private, secret, responseNonce).Ok?
    ensures var issued := AnswerRequest(p, text, destination, nowMs, private, secret, responseNonce).value.0;
            var wire := ReadRequest(p, text).value;
            && ReadRequest(p, text).Some? && wire.format == RequestFormat && issued.requestId == wire.requestId
            && |wire.requestId| == ID_OCTETS && |wire.publicKey| == KEY_OCTETS && |wire.nonce| == NONCE_OCTETS
            && nowMs < issued.expiresMs <= SaturatingAdd(nowMs, VALIDITY_MS)
            && issued.expiresMs <= wire.expiresMs
            && issued.expiresMs <= wire.createdMs + VALIDITY_MS
            && wire.createdMs <= nowMs + MAX_SKEW_MS
            && (issued.expiresMs == wire.expiresMs || issued.expiresMs == SaturatingAdd(nowMs, VALIDITY_MS))
  {
  }

  /** An opened access never outlives the request, and is not over yet; it is what a
  payload for this request carries, in a response to this request: for any text. */
  lemma OpenedLifetime(p: Primitives, text: string, pending: Pending, nowMs: U64)
    requires OpenResponse(p, text, pending, nowMs).Ok?
    ensures ReadResponse(p, text).Some?
    ensures var access, wire := OpenResponse(p, text, pending, nowMs).value, ReadResponse(p, text).value;
            var plain := p.unseal(AnswerKey(p, pending.privateKey, wire.publicKey, pending.requestId, pending.nonce), wire.nonce, wire.ciphertext);
            && nowMs < access.expiresMs <= pending.expiresMs
            && wire.format == ResponseFormat && wire.requestId == pending.requestId
            && plain.Some?
            && p.readPayload(plain.value) ==
                 Some(Payload(PayloadFormat, pending.requestId, access.destination, access.callSecret, access.expiresMs))
            && access.requestId == pending.requestId && |access.callSecret| == KEY_OCTETS
  {
  }

  /** Texts above 16 KiB are not looked into, and after its expiry a request takes no
  answer at all. */
  lemma RefusedUnread(p: Primitives, text: string, destination: string, nowMs: U64, private: string, secret: string,
                      responseNonce: string, pending: Pending, issued: Issued, caller: string, receiver: string)
    ensures |Trim(text)| > 16 * 1024 ==> AnswerRequest(p, text, destination, nowMs, private, secret, responseNonce) == Err(Unreadable)
    ensures pending.expiresMs <= nowMs ==> OpenResponse(p, text, pending, nowMs) == Err(Expired)
    ensures pending.expiresMs > nowMs && |Trim(text)| > 16 * 1024 ==> OpenResponse(p, text, pending, nowMs) == Err(Unreadable)
    ensures |text| > |AUTH_PREFIX| + 16 * 1024 ==> VerifyAuthSignal(p, text, issued, caller, receiver, nowMs).Some?
  {
  }

  // ---------- an honest handshake ----------

  lemma PrefixesPlain()
    ensures NoSpace(REQUEST_PREFIX) && NoSpace(RESPONSE_PREFIX)
  {
  }

  /** An honest request is answered exactly when it is not too far in the future
  and has not expired on the answering clock. */
  lemma AnswerHonest(p: Primitives, t1: U64, private: string, id: string, nonce: string,
                     destination: string, t2: U64, private': string, secret: string, nonce': string)
    requires Ideal(p) && IsId(id) && |nonce| == NONCE_OCTETS
    requires |GenerateRequest(p, t1, private, id, nonce).1| <= MAX_ENCODED
    ensures var (pending, request) := GenerateRequest(p, t1, private, id, nonce);
            var answer := AnswerRequest(p, request, destination, t2, private', secret, nonce');
            && (answer.Ok? <==> t1 <= SaturatingAdd(t2, MAX_SKEW_MS) && t2 < pending.expiresMs)
            && (answer.Ok? ==>
                  var (issued, text) := answer.value;
                  var key := AnswerKey(p, private', p.publicOf(private), id, nonce);
                  && issued == Issued(id, secret, Min(pending.expiresMs, SaturatingAdd(t2, VALIDITY_MS)), Available)
                  && text == RESPONSE_PREFIX + p.showResponse(ResponseWire(ResponseFormat, id, p.publicOf(private'), nonce',
                       p.seal(key, nonce', p.showPayload(Payload(PayloadFormat, id, Lower(destination), secret, issued.expiresMs))))))
  {
    var (pending, request) := GenerateRequest(p, t1, private, id, nonce);
    var wire := RequestWire(RequestFormat, id, p.publicOf(private), t1, pending.expiresMs, nonce);
    PrefixesPlain();
    assert p.readRequest(p.showRequest(wire)) == Some(wire);
    UnwrapText(REQUEST_PREFIX, p.showRequest(wire));
    assert |p.publicOf(private)| == KEY_OCTETS;
  }

  /** Its answer is opened exactly until it expires, and gives both sides the
  same secret and the same expiry. */
  lemma OpenHonest(p: Primitives, pending: Pending, private': string, secret: string, nonce': string,
                   destination: string, expires: U64, t3: U64)
    requires Ideal(p) && IsId(pending.requestId) && |secret| == KEY_OCTETS && |nonce'| == NONCE_OCTETS
    requires expires <= pending.expiresMs
    requires var key := AnswerKey(p, private', p.publicOf(pending.privateKey), pending.requestId, pending.nonce);
             |RESPONSE_PREFIX + p.showResponse(ResponseWire(ResponseFormat, pending.requestId, p.publicOf(private'), nonce',
               p.seal(key, nonce', p.showPayload(Payload(PayloadFormat, pending.requestId, Lower(destination), secret, expires)))))|
             <= MAX_ENCODED
    ensures var key := AnswerKey(p, private', p.publicOf(pending.privateKey), pending.requestId, pending.nonce);
            var text := RESPONSE_PREFIX + p.showResponse(ResponseWire(ResponseFormat, pending.requestId, p.publicOf(private'), nonce',
              p.seal(key, nonce', p.showPayload(Payload(PayloadFormat, pending.requestId, Lower(destination), secret, expires)))));
            OpenResponse(p, text, pending, t3) ==
              if t3 < expires then Ok(Outgoing(pending.requestId, secret, Lower(destination), expires)) else Err(Expired)
  {
    var key := AnswerKey(p, private', p.publicOf(pending.privateKey), pending.requestId, pending.nonce);
    var payload := Payload(PayloadFormat, pending.requestId, Lower(destination), secret, expires);
    var wire := ResponseWire(ResponseFormat, pending.requestId, p.publicOf(private'), nonce', p.seal(key, nonce', p.showPayload(payload)));
    PrefixesPlain();
    assert p.readResponse(p.showResponse(wire)) == Some(wire);
    UnwrapText(RESPONSE_PREFIX, p.showResponse(wire));
    assert p.shared(pending.privateKey, p.publicOf(private')) == p.shared(private', p.publicOf(pending.privateKey));
    assert p.unseal(key, nonce', p.seal(key, nonce', p.showPayload(payload))) == Some(p.showPayload(payload));
    assert p.readPayload(p.showPayload(payload)) == Some(payload);
  }

  /** A proof made with the shared secret is accepted exactly until expiry. */
  lemma AuthHonest(p: Primitives, access: Outgoing, issued: Issued, caller: string, receiver: string,
                   t4: U64, nonce: string, t5: U64)
    requires Ideal(p) && IsId(access.requestId) && IsId(nonce)
    requires issued == Issued(access.requestId, access.callSecret, access.expiresMs, Available)
    requires |p.showProof(AuthProof(access.requestId, nonce,
               p.mac(access.callSecret, Transcript(access.requestId, nonce, caller, receiver))))| <= MAX_ENCODED
    ensures var signal := MakeAuthSignal(p, access, caller, receiver, t4, nonce);
            && (signal.Ok? <==> t4 < access.expiresMs)
            && (signal.Ok? ==> (VerifyAuthSignal(p, signal.value, issued, caller, receiver, t5) == None <==> t5 < issued.expiresMs))
  {
    var mac := p.mac(access.callSecret, Transcript(access.requestId, nonce, caller, receiver));
    var proof := AuthProof(access.requestId, nonce, mac);
    assert p.readProof(p.showProof(proof)) == Some(proof);
    assert (AUTH_PREFIX + p.showProof(proof))[|AUTH_PREFIX|..] == p.showProof(proof);
    assert |mac| == KEY_OCTETS;
  }

  /** The whole handshake between honest parties completes, whatever the random
  values, when clocks are within the skew and every step precedes expiry. */
  lemma HandshakeCompletes(
    p: Primitives, private: string, id: string, nonce: string, destination: string,
    private': string, secret: string, nonce': string, caller: string, receiver: string, proofNonce: string,
    t1: U64, t2: U64, t3: U64, t4: U64, t5: U64)
    requires Ideal(p) && IsId(id) && IsId(proofNonce) && |secret| == KEY_OCTETS
    requires |nonce| == |nonce'| == NONCE_OCTETS
    requires var (pending, request) := GenerateRequest(p, t1, private, id, nonce);
             var answer := AnswerRequest(p, request, destination, t2, private', secret, nonce');
             && |request| <= MAX_ENCODED
             && (answer.Ok? ==> |answer.value.1| <= MAX_ENCODED)
             && |p.showProof(AuthProof(id, proofNonce, p.mac(secret, Transcript(id, proofNonce, caller, receiver))))| <= MAX_ENCODED
    requires t1 <= SaturatingAdd(t2, MAX_SKEW_MS)
    requires var expires := Min(SaturatingAdd(t1, VALIDITY_MS), SaturatingAdd(t2, VALIDITY_MS));
             t2 < expires && t3 < expires && t4 < expires && t5 < expires
    ensures var (pending, request) := GenerateRequest(p, t1, private, id, nonce);
            var answer := AnswerRequest(p, request, destination, t2, private', secret, nonce');
            && answer.Ok?
            && var (issued, text) := answer.value;
            var access := OpenResponse(p, text, pending, t3);
            && access.Ok?
            && access.value.callSecret == issued.callSecret == secret
            && access.value.expiresMs == issued.expiresMs
            && access.value.destination == Lower(destination)
            && var signal := MakeAuthSignal(p, access.value, caller, receiver, t4, proofNonce);
            && signal.Ok?
            && VerifyAuthSignal(p, signal.value, issued, caller, receiver, t5) == None
  {
    var (pending, request) := GenerateRequest(p, t1, private, id, nonce);
    AnswerHonest(p, t1, private, id, nonce, destination, t2, private', secret, nonce');
    var (issued, text) := AnswerRequest(p, request, destination, t2, private', secret, nonce').value;
    OpenHonest(p, pending, private', secret, nonce', destination, issued.expiresMs, t3);
    var access := OpenResponse(p, text, pending, t3).value;
    AuthHonest(p, access, issued, caller, receiver, t4, proofNonce, t5);
  }

  // ---------- what an accepted proof shows ----------

  /** Unforgeability, for one presented proof: its tag fits a message only if that
  message was authenticated by a holder of the secret. */
  ghost predicate Unforged(p: Primitives, secret: string, made: set<Made>, message: string, tag: string) {
    p.mac(secret, message) == tag ==>
      exists m :: m in made && message == Transcript(m.requestId, m.nonce, m.caller, m.receiver)
  }

  /** Verification accepts only a proof that was made for the same request and
  nonce, and the same caller and receiver up to letter case. */
  lemma AcceptedProofsWereMade(p: Primitives, body: string, issued: Issued, caller: string, receiver: string, nowMs: U64,
                               made: set<Made>)
    requires VerifyAuthSignal(p, body, issued, caller, receiver, nowMs) == None
    requires |caller| <= U32_MAX
    requires forall m :: m in made ==> IsId(m.requestId) && IsId(m.nonce) && |m.caller| <= U32_MAX
    requires var proof := ReadProof(p, body).value;
             Unforged(p, issued.callSecret, made, Transcript(issued.requestId, proof.nonce, caller, receiver), proof.mac)
    ensures issued.state == Available && nowMs < issued.expiresMs
    ensures exists m :: m in made && m.requestId == issued.requestId && m.nonce == ReadProof(p, body).value.nonce
              && SameIgnoringCase(m.caller, caller) && SameIgnoringCase(m.receiver, receiver)
  {
    var proof := ReadProof(p, body).value;
    var m :| m in made &&
      Transcript(issued.requestId, proof.nonce, caller, receiver) == Transcript(m.requestId, m.nonce, m.caller, m.receiver);
    TranscriptInjective(m.requestId, m.nonce, m.caller, m.receiver, issued.requestId, proof.nonce, caller, receiver);
  }

  /** An answer that opens was encrypted for this very request: same id, same
  request nonce, same shared key, when the hash tells the two materials apart
  and the cipher opens under no other key. */
  lemma OpenedAnswersWereForThisRequest(p: Primitives, text: string, pending: Pending, nowMs: U64,
                                        shared: string, id: string, nonce: string, plain: string)
    requires OpenResponse(p, text, pending, nowMs).Ok?
    requires IsId(id) && IsId(pending.requestId) && |shared| == KEY_OCTETS
    requires forall a, b :: |p.shared(a, b)| == KEY_OCTETS
    requires var wire := ReadResponse(p, text).value;
             var mine := KeyMaterial(p.shared(pending.privateKey, wire.publicKey), wire.requestId, pending.nonce);
             var theirs := KeyMaterial(shared, id, nonce);
             && wire.ciphertext == p.seal(p.hash(theirs), wire.nonce, plain)
             && (p.hash(mine) == p.hash(theirs) ==> mine == theirs)
             && OwnKeyOnly(p)
    ensures id == pending.requestId && nonce == pending.nonce
    ensures shared == p.shared(pending.privateKey, ReadResponse(p, text).value.publicKey)
  {
    var wire := ReadResponse(p, text).value;
    KeyMaterialInjective(p.shared(pending.privateKey, wire.publicKey), wire.requestId, pending.nonce, shared, id, nonce);
  }
}
