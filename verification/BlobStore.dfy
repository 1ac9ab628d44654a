/** The blob directory of one drop under concurrent clients and the garbage
collector: every file-system call is one step, in any interleaving.

A name leads to an inode, as a directory does; a reader or writer that has a
file open keeps its inode whatever happens to the name. The digest that names
the file of a key and the hash under the proof of work are parameters. */
module BlobStore {
  import opened Wrappers
  import opened ProofOfWork

  const MAX_BLOB: nat := 256 * 1024
  const NANOS: nat := 1_000_000_000
  const TTL_SECONDS: nat := 14 * 24 * 60 * 60

  datatype World = World(digest: string -> string, hash: string -> Digest)

  /** A blob request whose checks passed. */
  datatype Put = Put(key: string, blob: string, counter: nat)

  datatype Name = Blob(digest: string) | Temp(digest: string, serial: nat)

  datatype Inode = Inode(data: string, modified: nat)

  datatype Outcome = Stored | Exists | Failed

  /** Where the handler of one connection is. */
  datatype Client =
    | Idle
    | PutChecking(put: Put)
    | PutCreating(put: Put, serial: nat)
    | PutWriting(put: Put, serial: nat, inode: nat, written: nat)
    | PutCleaning(put: Put, serial: nat)
    | PutDone(put: Put, outcome: Outcome)
    | GetChecking(key: string)
    | GetExpiring(key: string)
    | GetOpening(key: string)
    | GetReading(key: string, inode: nat, got: string)
    | GetDone(key: string, reply: Option<string>)

  /** `submitted` only remembers: every accepted blob request. */
  datatype State = State(
    names: map<Name, nat>, inodes: seq<Inode>, clients: seq<Client>, serial: nat, now: nat,
    sweeping: set<Name>, submitted: set<Put>)

  datatype Action =
    | SubmitPut(client: nat, put: Put)
    | SubmitGet(client: nat, key: string)
    | LookForBlob(client: nat)                 // metadata of the blob file
    | CreateTemp(client: nat, fails: bool)     // open with create_new
    | WriteTemp(client: nat, octets: nat, fails: bool)
    | RenameTemp(client: nat, fails: bool)     // after everything is written
    | RemoveTemp(client: nat, fails: bool)     // the clean-up after an error
    | LookToRead(client: nat)                  // metadata, and the age of the file
    | RemoveExpired(client: nat, fails: bool)
    | OpenBlob(client: nat)
    | ReadBlob(client: nat, octets: nat)
    | Release(client: nat)                     // the connection is closed
    | GcLook(name: Name)
    | GcRemove(name: Name)
    | Tick(nanos: nat)

  // ---------- the steps ----------

  predicate Accepted(w: World, put: Put) {
    && IsValidKey(put.key)
    && |put.blob| <= MAX_BLOB
    && VerifyPutPow(w.hash, put.key, |put.blob|, put.blob, put.counter)
  }

  function BlobName(w: World, key: string): Name {
    Blob(w.digest(key))
  }

  function TempName(w: World, put: Put, serial: nat): Name {
    Temp(w.digest(put.key), serial)
  }

  /** Age in whole seconds, and never old when the file is from the future. */
  predicate IsOlderThanTtl(now: nat, modified: nat) {
    now >= modified && (now - modified) / NANOS > TTL_SECONDS
  }

  /** So a file is kept for two weeks and the second they end in. */
  lemma OlderIff(now: nat, modified: nat)
    ensures IsOlderThanTtl(now, modified) <==> now >= modified + 14 * 24 * 60 * 60 * NANOS + NANOS
  {
    if now >= modified {
      var age := now - modified;
      assert age == NANOS * (age / NANOS) + age % NANOS;
    }
  }

  predicate Expired(s: State, name: Name) {
    name in s.names && s.names[name] < |s.inodes| && IsOlderThanTtl(s.now, s.inodes[s.names[name]].modified)
  }

  function With(s: State, i: nat, c: Client): State
    requires i < |s.clients|
  {
    s.(clients := s.clients[i := c])
  }

  function Without(s: State, name: Name): State {
    s.(names := s.names - {name})
  }

  /** One step; an action that the state does not allow changes nothing. */
  function Apply(w: World, s: State, a: Action): State {
    match a
    case GcLook(name) => if Expired(s, name) then s.(sweeping := s.sweeping + {name}) else s
    case GcRemove(name) =>
      if name in s.sweeping then Without(s, name).(sweeping := s.sweeping - {name}) else s
    case Tick(nanos) => s.(now := s.now + nanos)
    case _ => if a.client < |s.clients| then ApplyClient(w, s, a, s.clients[a.client]) else s
  }

  function ApplyClient(w: World, s: State, a: Action, c: Client): State
    requires !a.GcLook? && !a.GcRemove? && !a.Tick? && a.client < |s.clients|
  {
    var i := a.client;
    match (a, c)
    case (SubmitPut(_, put), Idle) =>
      if Accepted(w, put) then With(s, i, PutChecking(put)).(submitted := s.submitted + {put}) else s
    case (SubmitGet(_, key), Idle) =>
      if IsValidKey(key) then With(s, i, GetChecking(key)) else s
    case (LookForBlob(_), PutChecking(put)) =>
      if BlobName(w, put.key) in s.names then With(s, i, PutDone(put, Exists))
      else With(s, i, PutCreating(put, s.serial)).(serial := s.serial + 1)
    case (CreateTemp(_, fails), PutCreating(put, serial)) =>
      var temp := TempName(w, put, serial);
      if fails || temp in s.names then With(s, i, PutCleaning(put, serial))
      else
        With(s, i, PutWriting(put, serial, |s.inodes|, 0))
          .(names := s.names[temp := |s.inodes|], inodes := s.inodes + [Inode([], s.now)])
    case (WriteTemp(_, octets, fails), PutWriting(put, serial, inode, written)) =>
      if fails || written > |put.blob| || inode >= |s.inodes| then With(s, i, PutCleaning(put, serial))
      else
        var end := if written + octets <= |put.blob| then written + octets else |put.blob|;
        With(s, i, PutWriting(put, serial, inode, end)).(inodes := s.inodes[inode := Inode(put.blob[..end], s.now)])
    case (RenameTemp(_, fails), PutWriting(put, serial, inode, written)) =>
      var temp := TempName(w, put, serial);
      if written < |put.blob| then s
      else if fails || temp !in s.names then With(s, i, PutCleaning(put, serial))
      else
        With(s, i, PutDone(put, Stored)).(names := (s.names - {temp})[BlobName(w, put.key) := s.names[temp]])
    case (RemoveTemp(_, fails), PutCleaning(put, serial)) =>
      With(if fails then s else Without(s, TempName(w, put, serial)), i, PutDone(put, Failed))
    case (LookToRead(_), GetChecking(key)) =>
      if BlobName(w, key) !in s.names then With(s, i, GetDone(key, None))
      else if Expired(s, BlobName(w, key)) then With(s, i, GetExpiring(key))
      else With(s, i, GetOpening(key))
    case (RemoveExpired(_, fails), GetExpiring(key)) =>
      With(if fails then s else Without(s, BlobName(w, key)), i, GetDone(key, None))
    case (OpenBlob(_), GetOpening(key)) =>
      if BlobName(w, key) in s.names then With(s, i, GetReading(key, s.names[BlobName(w, key)], []))
      else With(s, i, Idle)
    case (ReadBlob(_, octets), GetReading(key, inode, got)) =>
      if inode >= |s.inodes| || |got| > |s.inodes[inode].data| then s
      else
        var data := s.inodes[inode].data;
        if |got| == |data| then With(s, i, GetDone(key, Some(got)))
        else
          var end := if |got| + octets <= |data| then |got| + octets else |data|;
          With(s, i, GetReading(key, inode, got + data[|got|..end]))
    case (Release(_), PutDone(_, _)) => With(s, i, Idle)
    case (Release(_), GetDone(_, _)) => With(s, i, Idle)
    case _ => s
  }

  function After(w: World, s: State, actions: seq<Action>): State {
    if actions == [] then s else Apply(w, After(w, s, actions[..|actions| - 1]), actions[|actions| - 1])
  }

  // ---------- the invariant ----------

  function SerialOf(c: Client): Option<nat> {
    if c.PutCreating? || c.PutWriting? || c.PutCleaning? then Some(c.serial) else None
  }

  function InodeOf(c: Client): Option<nat> {
    if c.PutWriting? then Some(c.inode) else None
  }

  /** `data` is a whole blob submitted under a key with this digest. */
  ghost predicate Submitted(w: World, s: State, digest: string, data: string) {
    exists put :: put in s.submitted && w.digest(put.key) == digest && put.blob == data
  }

  ghost predicate Unwritten(s: State, inode: nat) {
    forall i :: 0 <= i < |s.clients| ==> InodeOf(s.clients[i]) != Some(inode)
  }

  /** The inode holds a whole blob for the digest and nobody can write to it. */
  ghost predicate Sealed(w: World, s: State, digest: string, inode: nat) {
    inode < |s.inodes| && Submitted(w, s, digest, s.inodes[inode].data) && Unwritten(s, inode)
  }

  ghost predicate NamesOk(w: World, s: State) {
    && (forall n :: n in s.names ==> s.names[n] < |s.inodes|)
    && (forall n :: n in s.names && n.Blob? ==> Sealed(w, s, n.digest, s.names[n]))
  }

  ghost predicate WriterOk(w: World, s: State, put: Put, serial: nat, inode: nat, written: nat) {
    && put in s.submitted && serial < s.serial
    && inode < |s.inodes| && written <= |put.blob| && s.inodes[inode].data == put.blob[..written]
    && (forall n :: n in s.names && s.names[n] == inode ==> n == TempName(w, put, serial))
    && (TempName(w, put, serial) in s.names ==> s.names[TempName(w, put, serial)] == inode)
  }

  ghost predicate ClientOk(w: World, s: State, c: Client) {
    match c
    case PutChecking(put) => put in s.submitted
    case PutCreating(put, serial) => put in s.submitted && serial < s.serial
    case PutCleaning(put, serial) => put in s.submitted && serial < s.serial
    case PutWriting(put, serial, inode, written) => WriterOk(w, s, put, serial, inode, written)
    case PutDone(put, _) => put in s.submitted
    case GetReading(key, inode, got) =>
      IsValidKey(key) && Sealed(w, s, w.digest(key), inode) && got <= s.inodes[inode].data
    case GetDone(key, Some(data)) => IsValidKey(key) && Submitted(w, s, w.digest(key), data)
    case Idle => true
    case _ => IsValidKey(c.key)
  }

  ghost predicate ClientsOk(w: World, s: State) {
    forall i :: 0 <= i < |s.clients| ==> ClientOk(w, s, s.clients[i])
  }

  ghost predicate ClientsApart(s: State) {
    forall i, j :: 0 <= i < |s.clients| && 0 <= j < |s.clients| && i != j ==>
      && (SerialOf(s.clients[i]).Some? ==> SerialOf(s.clients[i]) != SerialOf(s.clients[j]))
      && (InodeOf(s.clients[i]).Some? ==> InodeOf(s.clients[i]) != InodeOf(s.clients[j]))
  }

  ghost predicate SubmittedOk(w: World, s: State) {
    forall put :: put in s.submitted ==> Accepted(w, put)
  }

  ghost predicate Inv(w: World, s: State) {
    NamesOk(w, s) && ClientsOk(w, s) && ClientsApart(s) && SubmittedOk(w, s)
  }

  /** A server that starts on a directory left by earlier runs: blob files hold
  submitted blobs, anything may be left in temporary files. */
  ghost predicate Start(w: World, s: State) {
    && NamesOk(w, s)
    && (forall i :: 0 <= i < |s.clients| ==> s.clients[i] == Idle)
    && SubmittedOk(w, s)
  }

  // ---------- what a step of one client leaves alone ----------

  /** `s'` differs from `s` only in what client `i` may touch. */
  ghost predicate Frame(s: State, s': State, i: nat) {
    && |s'.clients| == |s.clients|
    && (forall j :: 0 <= j < |s.clients| && j != i ==> s'.clients[j] == s.clients[j])
    && s.submitted <= s'.submitted && s.serial <= s'.serial && |s.inodes| <= |s'.inodes|
    && (forall k :: 0 <= k < |s.inodes| && !Owns(s, i, k) ==> s'.inodes[k].data == s.inodes[k].data)
    && (forall k: nat :: Owns(s', i, k) ==> Owns(s, i, k) || k >= |s.inodes|)
    && (forall n :: n in s'.names ==> (n in s.names && s'.names[n] == s.names[n]) || NewName(s, s', i, n))
  }

  ghost predicate Owns(s: State, i: nat, inode: nat) {
    i < |s.clients| && InodeOf(s.clients[i]) == Some(inode)
  }

  ghost predicate NewName(s: State, s': State, i: nat, n: Name)
    requires n in s'.names
  {
    && i < |s.clients|
    && (n.Temp? ==> SerialOf(s.clients[i]) == Some(n.serial))
    && (Owns(s, i, s'.names[n]) || s'.names[n] >= |s.inodes|)
  }

  lemma SealedStays(w: World, s: State, s': State, i: nat, digest: string, inode: nat)
    requires Frame(s, s', i) && Sealed(w, s, digest, inode)
    ensures Sealed(w, s', digest, inode) && s'.inodes[inode].data == s.inodes[inode].data
  {
    assert !Owns(s, i, inode);
    assert !Owns(s', i, inode);
    forall j | 0 <= j < |s'.clients| ensures InodeOf(s'.clients[j]) != Some(inode) {
      if j != i {
        assert s'.clients[j] == s.clients[j];
      }
    }
    SubmittedStays(w, s, s', digest, s.inodes[inode].data);
  }

  lemma SubmittedStays(w: World, s: State, s': State, digest: string, data: string)
    requires Submitted(w, s, digest, data) && s.submitted <= s'.submitted
    ensures Submitted(w, s', digest, data)
  {
    var put :| put in s.submitted && w.digest(put.key) == digest && put.blob == data;
    assert put in s'.submitted;
  }

  lemma OtherClientStays(w: World, s: State, s': State, i: nat, j: nat)
    requires Inv(w, s) && Frame(s, s', i) && j < |s.clients| && j != i
    ensures ClientOk(w, s', s'.clients[j])
  {
    var c := s.clients[j];
    assert ClientOk(w, s, c) && s'.clients[j] == c;
    match c
    case PutWriting(put, serial, inode, written) => OtherWriterStays(w, s, s', i, j);
    case GetReading(key, inode, got) => SealedStays(w, s, s', i, w.digest(key), inode);
    case GetDone(key, Some(data)) => SubmittedStays(w, s, s', w.digest(key), data);
    case _ =>
  }

  lemma OtherWriterStays(w: World, s: State, s': State, i: nat, j: nat)
    requires Inv(w, s) && Frame(s, s', i) && j < |s.clients| && j != i && s.clients[j].PutWriting?
    ensures ClientOk(w, s', s.clients[j])
  {
    var PutWriting(put, serial, inode, written) := s.clients[j];
    assert WriterOk(w, s, put, serial, inode, written) by { assert ClientOk(w, s, s.clients[j]); }
    assert Owns(s, j, inode) && !Owns(s, i, inode);
    var temp := TempName(w, put, serial);
    forall n | n in s'.names && s'.names[n] == inode ensures n == temp {
      assert !NewName(s, s', i, n);
    }
    if temp in s'.names {
      assert i < |s.clients| ==> SerialOf(s.clients[i]) != Some(serial);
      assert !NewName(s, s', i, temp);
    }
  }

  /** A step of client `i` inside the frame whose own client, new blob name and new
  number are in order. */
  ghost predicate Allowed(w: World, s: State, s': State, i: nat) {
    && i < |s.clients| && Frame(s, s', i) && ClientOk(w, s', s'.clients[i])
    && (forall n :: n in s'.names ==> s'.names[n] < |s'.inodes|)
    && (forall n :: n in s'.names && n.Blob? && NewName(s, s', i, n) ==> Sealed(w, s', n.digest, s'.names[n]))
    && (SerialOf(s'.clients[i]) == SerialOf(s.clients[i]) || SerialOf(s'.clients[i]) == None
        || SerialOf(s'.clients[i]) == Some(s.serial))
    && (forall put :: put in s'.submitted ==> put in s.submitted || Accepted(w, put))
  }

  /** Such a step keeps the invariant. */
  lemma FrameKeepsInv(w: World, s: State, s': State, i: nat)
    requires Inv(w, s) && Allowed(w, s, s', i)
    ensures Inv(w, s')
  {
    assert NamesOk(w, s') by {
      forall n | n in s'.names && n.Blob? ensures Sealed(w, s', n.digest, s'.names[n]) {
        if !NewName(s, s', i, n) {
          SealedStays(w, s, s', i, n.digest, s.names[n]);
        }
      }
    }
    assert ClientsOk(w, s') by {
      forall j | 0 <= j < |s'.clients| ensures ClientOk(w, s', s'.clients[j]) {
        if j != i {
          OtherClientStays(w, s, s', i, j);
        }
      }
    }
    FrameKeepsApart(w, s, s', i);
  }

  lemma FrameKeepsApart(w: World, s: State, s': State, i: nat)
    requires Inv(w, s) && i < |s.clients| && Frame(s, s', i)
    requires SerialOf(s'.clients[i]) == SerialOf(s.clients[i]) || SerialOf(s'.clients[i]) == None
          || SerialOf(s'.clients[i]) == Some(s.serial)
    ensures ClientsApart(s')
  {
    forall j | 0 <= j < |s.clients| && j != i
      ensures SerialOf(s.clients[j]).Some? ==> SerialOf(s'.clients[i]) != SerialOf(s'.clients[j])
      ensures InodeOf(s.clients[j]).Some? ==> InodeOf(s'.clients[i]) != InodeOf(s'.clients[j])
    {
      assert s'.clients[j] == s.clients[j] && ClientOk(w, s, s.clients[j]);
      if InodeOf(s'.clients[i]).Some? {
        assert Owns(s', i, InodeOf(s'.clients[i]).value);
      }
    }
  }

  // ---------- every step keeps the invariant ----------

  /** Names may vanish and the clock may move. */
  lemma QuietKeepsInv(w: World, s: State, s': State)
    requires Inv(w, s)
    requires s'.inodes == s.inodes && s'.clients == s.clients && s'.serial == s.serial
    requires s'.submitted == s.submitted
    requires forall n :: n in s'.names ==> n in s.names && s'.names[n] == s.names[n]
    ensures Inv(w, s')
  {
    forall digest, inode | Sealed(w, s, digest, inode) ensures Sealed(w, s', digest, inode) {
      SealedStays(w, s, s', |s.clients|, digest, inode);
    }
    forall j | 0 <= j < |s.clients| ensures ClientOk(w, s', s'.clients[j]) {
      OtherClientStays(w, s, s', |s.clients|, j);
    }
  }

  /** What one step of a client may rely on: every name leads to a file, and its
  own client is in order. */
  ghost predicate NamesLead(s: State) {
    forall n :: n in s.names ==> s.names[n] < |s.inodes|
  }

  lemma SubmitAllowed(w: World, s: State, a: Action)
    requires NamesLead(s) && (a.SubmitPut? || a.SubmitGet? || a.Release?) && a.client < |s.clients| && ClientOk(w, s, s.clients[a.client])
    ensures Apply(w, s, a) == s || Allowed(w, s, Apply(w, s, a), a.client)
  {
  }

  lemma LookAllowed(w: World, s: State, a: Action)
    requires NamesLead(s) && a.LookForBlob? && a.client < |s.clients| && ClientOk(w, s, s.clients[a.client])
    ensures Apply(w, s, a) == s || Allowed(w, s, Apply(w, s, a), a.client)
  {
  }

  lemma CreateAllowed(w: World, s: State, a: Action)
    requires NamesLead(s) && a.CreateTemp? && a.client < |s.clients| && ClientOk(w, s, s.clients[a.client])
    ensures Apply(w, s, a) == s || Allowed(w, s, Apply(w, s, a), a.client)
  {
  }

  lemma RemoveAllowed(w: World, s: State, a: Action)
    requires NamesLead(s) && (a.RemoveTemp? || a.RemoveExpired?) && a.client < |s.clients| && ClientOk(w, s, s.clients[a.client])
    ensures Apply(w, s, a) == s || Allowed(w, s, Apply(w, s, a), a.client)
  {
  }

  lemma LookToReadAllowed(w: World, s: State, a: Action)
    requires NamesLead(s) && a.LookToRead? && a.client < |s.clients| && ClientOk(w, s, s.clients[a.client])
    ensures Apply(w, s, a) == s || Allowed(w, s, Apply(w, s, a), a.client)
  {
  }

  lemma WriteAllowed(w: World, s: State, a: Action)
    requires NamesLead(s) && a.WriteTemp? && a.client < |s.clients| && ClientOk(w, s, s.clients[a.client])
    ensures Apply(w, s, a) == s || Allowed(w, s, Apply(w, s, a), a.client)
  {
    if s.clients[a.client].PutWriting? {
      assert Owns(s, a.client, s.clients[a.client].inode);
    }
  }

  /** Before the rename everything has been written, and nobody else writes. */
  lemma RenameSeals(w: World, s: State, i: nat)
    requires Inv(w, s) && i < |s.clients| && s.clients[i].PutWriting? && s.clients[i].written == |s.clients[i].put.blob|
    ensures var c := s.clients[i];
            && c.put in s.submitted && c.inode < |s.inodes| && s.inodes[c.inode].data == c.put.blob
            && (forall j :: 0 <= j < |s.clients| && j != i ==> InodeOf(s.clients[j]) != Some(c.inode))
            && (TempName(w, c.put, c.serial) in s.names ==> s.names[TempName(w, c.put, c.serial)] == c.inode)
            && (forall n :: n in s.names && s.names[n] == c.inode ==> n == TempName(w, c.put, c.serial))
  {
    var c := s.clients[i];
    assert ClientOk(w, s, c);
    assert c.put.blob[..c.written] == c.put.blob;
    assert InodeOf(c) == Some(c.inode);
  }

  lemma RenameAllowed(w: World, s: State, i: nat)
    requires NamesLead(s) && i < |s.clients| && s.clients[i].PutWriting?
    requires var c := s.clients[i];
             && c.put in s.submitted && c.inode < |s.inodes| && s.inodes[c.inode].data == c.put.blob
             && c.written == |c.put.blob| && TempName(w, c.put, c.serial) in s.names
             && s.names[TempName(w, c.put, c.serial)] == c.inode
             && (forall j :: 0 <= j < |s.clients| && j != i ==> InodeOf(s.clients[j]) != Some(c.inode))
             && (forall n :: n in s.names && s.names[n] == c.inode ==> n == TempName(w, c.put, c.serial))
    ensures Allowed(w, s, Apply(w, s, RenameTemp(i, false)), i)
  {
    var c, s' := s.clients[i], Apply(w, s, RenameTemp(i, false));
    assert Owns(s, i, c.inode);
    assert Submitted(w, s', w.digest(c.put.key), s'.inodes[c.inode].data);
    assert Sealed(w, s', w.digest(c.put.key), c.inode);
  }

  /** One that fails, or that has nothing to rename, only moves its own client. */
  lemma RenameFailsAllowed(w: World, s: State, i: nat, fails: bool)
    requires NamesLead(s) && i < |s.clients| && ClientOk(w, s, s.clients[i])
    requires fails || !s.clients[i].PutWriting? || s.clients[i].written < |s.clients[i].put.blob|
          || TempName(w, s.clients[i].put, s.clients[i].serial) !in s.names
    ensures var s' := Apply(w, s, RenameTemp(i, fails)); s' == s || Allowed(w, s, s', i)
  {
  }

  lemma OpenAllowed(w: World, s: State, a: Action)
    requires Inv(w, s) && a.OpenBlob? && a.client < |s.clients|
    ensures Apply(w, s, a) == s || Allowed(w, s, Apply(w, s, a), a.client)
  {
    var i, s' := a.client, Apply(w, s, a);
    if s' != s && s'.clients[i].GetReading? {
      assert Sealed(w, s, w.digest(s.clients[i].key), s'.clients[i].inode);
      SealedStays(w, s, s', i, w.digest(s.clients[i].key), s'.clients[i].inode);
    }
  }

  lemma ReadAllowed(w: World, s: State, a: Action)
    requires NamesLead(s) && a.ReadBlob? && a.client < |s.clients| && ClientOk(w, s, s.clients[a.client])
    ensures Apply(w, s, a) == s || Allowed(w, s, Apply(w, s, a), a.client)
  {
    var i, c, s' := a.client, s.clients[a.client], Apply(w, s, a);
    if s' != s {
      SealedStays(w, s, s', i, w.digest(c.key), c.inode);
    }
  }

  /** The rename publishes a blob only when all of it has been written. */
  lemma RenameKeepsInv(w: World, s: State, a: Action)
    requires Inv(w, s) && a.RenameTemp? && a.client < |s.clients|
    ensures Inv(w, Apply(w, s, a))
  {
    var i, c := a.client, s.clients[a.client];
    assert ClientOk(w, s, c);
    if a.fails || !c.PutWriting? || c.written < |c.put.blob| || TempName(w, c.put, c.serial) !in s.names {
      RenameFailsAllowed(w, s, i, a.fails);
    } else {
      RenameSeals(w, s, i);
      RenameAllowed(w, s, i);
    }
    AllowedKeepsInv(w, s, Apply(w, s, a), i);
  }

  /** A reader keeps the file it opened, whatever becomes of the name. */
  lemma ReadKeepsInv(w: World, s: State, a: Action)
    requires Inv(w, s) && a.ReadBlob? && a.client < |s.clients|
    ensures Inv(w, Apply(w, s, a))
  {
    assert ClientOk(w, s, s.clients[a.client]);
    ReadAllowed(w, s, a);
    AllowedKeepsInv(w, s, Apply(w, s, a), a.client);
  }

  lemma AllowedKeepsInv(w: World, s: State, s': State, i: nat)
    requires Inv(w, s) && (s' == s || Allowed(w, s, s', i))
    ensures Inv(w, s')
  {
    if s' != s {
      FrameKeepsInv(w, s, s', i);
    }
  }

  lemma ClientStepAllowed(w: World, s: State, a: Action)
    requires NamesLead(s) && !a.GcLook? && !a.GcRemove? && !a.Tick? && a.client < |s.clients| && ClientOk(w, s, s.clients[a.client])
    requires !a.RenameTemp? && !a.OpenBlob?
    ensures Apply(w, s, a) == s || Allowed(w, s, Apply(w, s, a), a.client)
  {
    match a
    case LookForBlob(_) => LookAllowed(w, s, a);
    case CreateTemp(_, _) => CreateAllowed(w, s, a);
    case WriteTemp(_, _, _) => WriteAllowed(w, s, a);
    case LookToRead(_) => LookToReadAllowed(w, s, a);
    case ReadBlob(_, _) => ReadAllowed(w, s, a);
    case RemoveTemp(_, _) => RemoveAllowed(w, s, a);
    case RemoveExpired(_, _) => RemoveAllowed(w, s, a);
    case _ => SubmitAllowed(w, s, a);
  }

  lemma ClientStepKeepsInv(w: World, s: State, a: Action)
    requires Inv(w, s) && !a.GcLook? && !a.GcRemove? && !a.Tick? && a.client < |s.clients|
    ensures Inv(w, Apply(w, s, a))
  {
    assert ClientOk(w, s, s.clients[a.client]);
    if a.RenameTemp? {
      RenameKeepsInv(w, s, a);
    } else {
      if a.OpenBlob? {
        OpenAllowed(w, s, a);
      } else {
        ClientStepAllowed(w, s, a);
      }
      AllowedKeepsInv(w, s, Apply(w, s, a), a.client);
    }
  }

  /** Looks and removals of the collector, and the clock. */
  lemma QuietStepKeepsInv(w: World, s: State, a: Action)
    requires Inv(w, s) && (a.GcLook? || a.GcRemove? || a.Tick?)
    ensures Inv(w, Apply(w, s, a))
  {
    QuietKeepsInv(w, s, Apply(w, s, a));
  }

  lemma NobodySteps(w: World, s: State, a: Action)
    requires !a.GcLook? && !a.GcRemove? && !a.Tick? && a.client >= |s.clients|
    ensures Apply(w, s, a) == s
  {
  }

  lemma StepKeepsInv(w: World, s: State, a: Action)
    requires Inv(w, s)
    ensures Inv(w, Apply(w, s, a))
  {
    if a.GcLook? || a.GcRemove? || a.Tick? {
      QuietStepKeepsInv(w, s, a);
    } else if a.client < |s.clients| {
      ClientStepKeepsInv(w, s, a);
    } else {
      NobodySteps(w, s, a);
    }
  }

  lemma {:induction false} RunKeepsInv(w: World, s: State, actions: seq<Action>)
    requires Start(w, s)
    ensures Inv(w, After(w, s, actions))
    decreases |actions|
  {
    if actions != [] {
      RunKeepsInv(w, s, actions[..|actions| - 1]);
      StepKeepsInv(w, After(w, s, actions[..|actions| - 1]), actions[|actions| - 1]);
    }
  }

  // ---------- what the answers mean ----------

  /** A file holds the data under the name of the digest. */
  ghost predicate HasBlob(s: State, digest: string, data: string) {
    Blob(digest) in s.names && s.names[Blob(digest)] < |s.inodes| && s.inodes[s.names[Blob(digest)]].data == data
  }

  /** What becomes of handler `i` in a step that moves it. OK to a put: its blob is
  under its name. EXISTS: a blob was. No answer: no file has appeared. MISS: no file
  was there, or one that had been found too old. OK to a get: the file it has open
  was read to its end. A handler that has found its file gone leaves unanswered. */
  ghost predicate AnswerMeans(w: World, s: State, next: State, i: nat)
    requires i < |s.clients| == |next.clients|
  {
    var c := s.clients[i];
    match next.clients[i]
    case PutDone(put, Stored) => c.PutWriting? && c.put == put && HasBlob(next, w.digest(put.key), put.blob)
    case PutDone(put, Exists) => c == PutChecking(put) && BlobName(w, put.key) in s.names && next.names == s.names
    case PutDone(put, Failed) =>
      c.PutCleaning? && c.put == put && (next.names == s.names || next.names == s.names - {TempName(w, put, c.serial)})
    case GetDone(key, None) =>
      || (c == GetChecking(key) && BlobName(w, key) !in s.names && next.names == s.names)
      || (c == GetExpiring(key) && (next.names == s.names || next.names == s.names - {BlobName(w, key)}))
    case GetDone(key, Some(data)) =>
      c.GetReading? && c.key == key && c.inode < |s.inodes| && s.inodes[c.inode].data == data && next.names == s.names
    case GetExpiring(key) => c == GetChecking(key) && Expired(s, BlobName(w, key)) && next.names == s.names
    case Idle => c.PutDone? || c.GetDone? || (c.GetOpening? && BlobName(w, c.key) !in s.names)
    case _ => true
  }

  /** One handler, and the answer its step leads to. */
  ghost predicate Moves(w: World, s: State, next: State, i: nat) {
    && i < |s.clients| == |next.clients|
    && (next.clients[i] != s.clients[i] ==> AnswerMeans(w, s, next, i))
  }

  lemma RenameMeans(w: World, s: State, i: nat, fails: bool)
    requires Inv(w, s) && i < |s.clients|
    ensures Moves(w, s, Apply(w, s, RenameTemp(i, fails)), i)
  {
    assert ClientOk(w, s, s.clients[i]);
    if s.clients[i].PutWriting? && s.clients[i].written == |s.clients[i].put.blob| {
      RenameSeals(w, s, i);
    }
  }

  lemma ReadMeans(w: World, s: State, i: nat, octets: nat)
    requires i < |s.clients| && ClientOk(w, s, s.clients[i])
    ensures Moves(w, s, Apply(w, s, ReadBlob(i, octets)), i)
  {
  }

  lemma PutStepMeans(w: World, s: State, a: Action)
    requires (a.SubmitPut? || a.LookForBlob? || a.CreateTemp? || a.WriteTemp? || a.RemoveTemp?) && a.client < |s.clients|
    ensures Moves(w, s, Apply(w, s, a), a.client)
  {
  }

  lemma GetStepMeans(w: World, s: State, a: Action)
    requires (a.SubmitGet? || a.LookToRead? || a.RemoveExpired? || a.OpenBlob? || a.Release?) && a.client < |s.clients|
    ensures Moves(w, s, Apply(w, s, a), a.client)
  {
  }

  lemma OthersDoNotMove(w: World, s: State, a: Action, i: nat)
    requires i < |s.clients| && (a.GcLook? || a.GcRemove? || a.Tick? || a.client != i)
    ensures Moves(w, s, Apply(w, s, a), i)
  {
  }

  lemma AnswersMean(w: World, s: State, a: Action, i: nat)
    requires Inv(w, s) && i < |s.clients|
    ensures Moves(w, s, Apply(w, s, a), i)
  {
    if a.GcLook? || a.GcRemove? || a.Tick? || a.client != i {
      OthersDoNotMove(w, s, a, i);
    } else {
      match a
      case RenameTemp(_, fails) => RenameMeans(w, s, i, fails);
      case ReadBlob(_, octets) =>
        assert ClientOk(w, s, s.clients[i]);
        ReadMeans(w, s, i, octets);
      case SubmitPut(_, _) => PutStepMeans(w, s, a);
      case LookForBlob(_) => PutStepMeans(w, s, a);
      case CreateTemp(_, _) => PutStepMeans(w, s, a);
      case WriteTemp(_, _, _) => PutStepMeans(w, s, a);
      case RemoveTemp(_, _) => PutStepMeans(w, s, a);
      case _ => GetStepMeans(w, s, a);
    }
  }

  /** A call that fails leads to the clean-up, and only there. */
  lemma FailureCleansUp(w: World, s: State, i: nat)
    requires i < |s.clients|
    ensures s.clients[i].PutCreating? ==>
              Apply(w, s, CreateTemp(i, true)) == With(s, i, PutCleaning(s.clients[i].put, s.clients[i].serial))
    ensures s.clients[i].PutWriting? ==> forall octets ::
              Apply(w, s, WriteTemp(i, octets, true)) == With(s, i, PutCleaning(s.clients[i].put, s.clients[i].serial))
    ensures s.clients[i].PutWriting? && s.clients[i].written == |s.clients[i].put.blob| ==>
              Apply(w, s, RenameTemp(i, true)) == With(s, i, PutCleaning(s.clients[i].put, s.clients[i].serial))
  {
  }

  /** The step a handler waits for. */
  function NextStep(c: Client, i: nat): Action {
    match c
    case Idle => Tick(0)
    case PutChecking(_) => LookForBlob(i)
    case PutCreating(_, _) => CreateTemp(i, false)
    case PutWriting(put, _, _, written) => if written < |put.blob| then WriteTemp(i, 1, false) else RenameTemp(i, false)
    case PutCleaning(_, _) => RemoveTemp(i, false)
    case GetChecking(_) => LookToRead(i)
    case GetExpiring(_) => RemoveExpired(i, false)
    case GetOpening(_) => OpenBlob(i)
    case GetReading(_, _, _) => ReadBlob(i, 1)
    case PutDone(_, _) => Release(i)
    case GetDone(_, _) => Release(i)
  }

  ghost predicate IsMoved(s: State, next: State, i: nat) {
    i < |s.clients| == |next.clients| && next.clients[i] != s.clients[i]
  }

  lemma ReaderMoves(w: World, s: State, i: nat)
    requires i < |s.clients| && s.clients[i].GetReading? && ClientOk(w, s, s.clients[i])
    ensures IsMoved(s, Apply(w, s, ReadBlob(i, 1)), i)
  {
  }

  lemma WriterMoves(w: World, s: State, i: nat)
    requires i < |s.clients| && s.clients[i].PutWriting? && ClientOk(w, s, s.clients[i])
    ensures IsMoved(s, Apply(w, s, NextStep(s.clients[i], i)), i)
  {
  }

  lemma OtherMoves(w: World, s: State, i: nat)
    requires i < |s.clients| && s.clients[i] != Idle && !s.clients[i].PutWriting? && !s.clients[i].GetReading?
    ensures IsMoved(s, Apply(w, s, NextStep(s.clients[i], i)), i)
  {
  }

  /** No handler is ever stuck: until it is idle there is a step that moves it. */
  lemma NeverStuck(w: World, s: State, i: nat)
    requires Inv(w, s) && i < |s.clients| && s.clients[i] != Idle
    ensures IsMoved(s, Apply(w, s, NextStep(s.clients[i], i)), i)
  {
    assert ClientOk(w, s, s.clients[i]);
    if s.clients[i].GetReading? {
      ReaderMoves(w, s, i);
    } else if s.clients[i].PutWriting? {
      WriterMoves(w, s, i);
    } else {
      OtherMoves(w, s, i);
    }
  }

  /** In every interleaving: whenever a handler gets to its answer, the answer means
  what it says. */
  lemma EveryAnswerMeans(w: World, s: State, actions: seq<Action>, a: Action, i: nat)
    requires Start(w, s) && i < |After(w, s, actions).clients|
    ensures Moves(w, After(w, s, actions), Apply(w, After(w, s, actions), a), i)
  {
    RunKeepsInv(w, s, actions);
    AnswersMean(w, After(w, s, actions), a, i);
  }

  // ---------- integrity ----------

  /** The digest tells the key apart from those of the blobs of the run. */
  ghost predicate NoCollisions(w: World, s: State, key: string) {
    forall put :: put in s.submitted && w.digest(put.key) == w.digest(key) ==> put.key == key
  }

  /** In every interleaving, whatever a handler answers a read request with is, in
  full, the blob of one request that passed the checks under that same key. */
  lemma AnswersAreSubmittedBlobs(w: World, s: State, actions: seq<Action>, i: nat, key: string, data: string)
    requires Start(w, s)
    requires var end := After(w, s, actions);
             NoCollisions(w, end, key) && i < |end.clients| && end.clients[i] == GetDone(key, Some(data))
    ensures exists put :: put in After(w, s, actions).submitted && put.key == key && put.blob == data && Accepted(w, put)
  {
    var end := After(w, s, actions);
    RunKeepsInv(w, s, actions);
    assert ClientOk(w, end, end.clients[i]);
    var put :| put in end.submitted && w.digest(put.key) == w.digest(key) && put.blob == data;
    assert put.key == key;
  }
}
