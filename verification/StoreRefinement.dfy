/** The step-by-step store and the one-request-at-a-time server agree: a request
or a collection whose steps run without interruption does to the files, and
answers, exactly what the sequential server does. */
module StoreRefinement {
  import opened Wrappers
  import opened ProofOfWork
  import opened RateLimiter
  import opened BlobStore
  import opened DropServer

  /** The files a state holds, by digest: temporary files are not among them. */
  ghost function FilesOf(s: State): map<string, Entry>
    requires NamesLead(s)
  {
    map n | n in s.names && n.Blob? :: n.digest := Entry(s.inodes[s.names[n]].data, s.inodes[s.names[n]].modified)
  }

  lemma FileAt(s: State, digest: string)
    requires NamesLead(s)
    ensures digest in FilesOf(s) <==> Blob(digest) in s.names
    ensures digest in FilesOf(s) ==>
              var inode := s.inodes[s.names[Blob(digest)]]; FilesOf(s)[digest] == Entry(inode.data, inode.modified)
  {
    if Blob(digest) in s.names {
      assert Blob(digest).digest in FilesOf(s);
    }
  }

  // ---------- put ----------

  /** The writes of a request, each as long as the file system takes it. */
  function WriteAll(w: World, s: State, i: nat, chunks: seq<nat>): State {
    if chunks == [] then s
    else Apply(w, WriteAll(w, s, i, chunks[..|chunks| - 1]), WriteTemp(i, chunks[|chunks| - 1], false))
  }

  function Sum(chunks: seq<nat>): nat {
    if chunks == [] then 0 else Sum(chunks[..|chunks| - 1]) + chunks[|chunks| - 1]
  }

  function PutLooked(w: World, s: State, i: nat, put: Put): State {
    Apply(w, Apply(w, s, SubmitPut(i, put)), LookForBlob(i))
  }

  function PutRest(w: World, s: State, i: nat, chunks: seq<nat>): State {
    Apply(w, Apply(w, WriteAll(w, Apply(w, s, CreateTemp(i, false)), i, chunks), RenameTemp(i, false)), RemoveTemp(i, false))
  }

  /** The steps of a blob request, one after the other; no call fails but those
  that must. */
  function PutAlone(w: World, s: State, i: nat, put: Put, chunks: seq<nat>): State {
    PutRest(w, PutLooked(w, s, i, put), i, chunks)
  }

  /** Writing does nothing for a handler that is not writing. */
  lemma {:induction false} WritesNothing(w: World, s: State, i: nat, chunks: seq<nat>)
    requires i < |s.clients| && !s.clients[i].PutWriting?
    ensures WriteAll(w, s, i, chunks) == s
    decreases |chunks|
  {
    if chunks != [] {
      WritesNothing(w, s, i, chunks[..|chunks| - 1]);
    }
  }

  function Upto(n: nat, limit: nat): nat {
    if n <= limit then n else limit
  }

  /** The front of the blob, as long as the writes. */
  function Partly(s: State, i: nat, put: Put, serial: nat, inode: nat, n: nat): State
    requires i < |s.clients| && inode < |s.inodes| && n <= |put.blob|
  {
    With(s, i, PutWriting(put, serial, inode, n)).(inodes := s.inodes[inode := Inode(put.blob[..n], s.now)])
  }

  lemma WritesMore(w: World, s: State, i: nat, put: Put, serial: nat, inode: nat, n: nat, more: nat)
    requires i < |s.clients| && inode < |s.inodes| && n <= |put.blob|
    ensures Apply(w, Partly(s, i, put, serial, inode, n), WriteTemp(i, more, false))
         == Partly(s, i, put, serial, inode, Upto(n + more, |put.blob|))
  {
    var before := Partly(s, i, put, serial, inode, n);
    var end := Upto(n + more, |put.blob|);
    assert s.clients[i := PutWriting(put, serial, inode, n)][i := PutWriting(put, serial, inode, end)]
        == s.clients[i := PutWriting(put, serial, inode, end)];
    assert before.inodes[inode := Inode(put.blob[..end], s.now)] == s.inodes[inode := Inode(put.blob[..end], s.now)];
  }

  lemma UptoAdds(n: nat, more: nat, limit: nat)
    ensures Upto(Upto(n, limit) + more, limit) == Upto(n + more, limit)
  {
  }

  lemma {:induction false} WritesAdd(w: World, s: State, i: nat, put: Put, serial: nat, inode: nat, chunks: seq<nat>)
    requires i < |s.clients| && inode < |s.inodes|
    ensures WriteAll(w, Partly(s, i, put, serial, inode, 0), i, chunks)
         == Partly(s, i, put, serial, inode, Upto(Sum(chunks), |put.blob|))
    decreases |chunks|
  {
    if chunks != [] {
      var k := |chunks| - 1;
      var start, n := Partly(s, i, put, serial, inode, 0), Upto(Sum(chunks[..k]), |put.blob|);
      WritesAdd(w, s, i, put, serial, inode, chunks[..k]);
      WritesMore(w, s, i, put, serial, inode, n, chunks[k]);
      UptoAdds(Sum(chunks[..k]), chunks[k], |put.blob|);
      WriteAllLast(w, start, i, chunks, Partly(s, i, put, serial, inode, n));
    }
  }

  lemma WriteAllLast(w: World, s: State, i: nat, chunks: seq<nat>, before: State)
    requires chunks != [] && before == WriteAll(w, s, i, chunks[..|chunks| - 1])
    ensures WriteAll(w, s, i, chunks) == Apply(w, before, WriteTemp(i, chunks[|chunks| - 1], false))
  {
  }

  /** Handler `i` is there now, and nobody came or left. */
  ghost predicate Went(s: State, end: State, i: nat, c: Client) {
    |end.clients| == |s.clients| && i < |s.clients| && end.clients[i] == c
  }

  lemma DoneStays(w: World, s: State, i: nat, chunks: seq<nat>)
    requires i < |s.clients| && s.clients[i].PutDone?
    ensures PutRest(w, s, i, chunks) == s
  {
    WritesNothing(w, s, i, chunks);
  }

  /** A request that finds the blob changes no file. */
  lemma PutFindsBlob(w: World, s: State, i: nat, put: Put, chunks: seq<nat>)
    requires i < |s.clients| && s.clients[i] == Idle && Accepted(w, put)
    requires BlobName(w, put.key) in s.names
    ensures var end := PutAlone(w, s, i, put, chunks);
            end.names == s.names && end.inodes == s.inodes && Went(s, end, i, PutDone(put, Exists))
  {
    PutSees(w, s, i, put);
    DoneStays(w, PutLooked(w, s, i, put), i, chunks);
  }

  lemma PutSees(w: World, s: State, i: nat, put: Put)
    requires i < |s.clients| && s.clients[i] == Idle && Accepted(w, put) && BlobName(w, put.key) in s.names
    ensures var looked := PutLooked(w, s, i, put);
            looked.names == s.names && looked.inodes == s.inodes && Went(s, looked, i, PutDone(put, Exists))
  {
  }

  lemma PutLooks(w: World, s: State, i: nat, put: Put)
    requires i < |s.clients| && s.clients[i] == Idle && Accepted(w, put) && BlobName(w, put.key) !in s.names
    ensures var looked := PutLooked(w, s, i, put);
            && looked.names == s.names && looked.inodes == s.inodes && looked.now == s.now
            && Went(s, looked, i, PutCreating(put, s.serial))
  {
  }

  /** A request that does not find it leaves the blob under its name, and no
  temporary file. */
  lemma PutStoresBlob(w: World, s: State, i: nat, put: Put, chunks: seq<nat>)
    requires i < |s.clients| && s.clients[i] == Idle && Accepted(w, put) && Sum(chunks) >= |put.blob|
    requires BlobName(w, put.key) !in s.names && TempName(w, put, s.serial) !in s.names
    ensures var end := PutAlone(w, s, i, put, chunks);
            && end.names == s.names[BlobName(w, put.key) := |s.inodes|]
            && end.inodes == s.inodes + [Inode(put.blob, s.now)]
            && Went(s, end, i, PutDone(put, Stored))
  {
    PutLooks(w, s, i, put);
    RestStores(w, PutLooked(w, s, i, put), i, put, s.serial, chunks);
  }

  lemma CreateAlone(w: World, s: State, i: nat, put: Put, serial: nat)
    requires i < |s.clients| && s.clients[i] == PutCreating(put, serial) && TempName(w, put, serial) !in s.names
    ensures var created := Apply(w, s, CreateTemp(i, false));
            && |created.clients| == |s.clients| && created.now == s.now && created.inodes == s.inodes + [Inode([], s.now)]
            && created.names == s.names[TempName(w, put, serial) := |s.inodes|]
            && created == Partly(created, i, put, serial, |s.inodes|, 0)
  {
    var created, inode := Apply(w, s, CreateTemp(i, false)), |s.inodes|;
    assert created.now == s.now && created.clients == s.clients[i := PutWriting(put, serial, inode, 0)];
    assert put.blob[..0] == [];
    assert created.inodes[inode := Inode([], s.now)] == created.inodes;
    assert created.clients[i := created.clients[i]] == created.clients;
  }

  lemma RenameAlone(w: World, s: State, i: nat, put: Put, serial: nat, inode: nat)
    requires i < |s.clients| && s.clients[i] == PutWriting(put, serial, inode, |put.blob|)
    requires TempName(w, put, serial) in s.names
    ensures var end := Apply(w, Apply(w, s, RenameTemp(i, false)), RemoveTemp(i, false));
            && end.names == (s.names - {TempName(w, put, serial)})[BlobName(w, put.key) := s.names[TempName(w, put, serial)]]
            && end.inodes == s.inodes && Went(s, end, i, PutDone(put, Stored))
  {
  }

  lemma RestStores(w: World, s: State, i: nat, put: Put, serial: nat, chunks: seq<nat>)
    requires i < |s.clients| && s.clients[i] == PutCreating(put, serial) && Sum(chunks) >= |put.blob|
    requires TempName(w, put, serial) !in s.names
    ensures var end := PutRest(w, s, i, chunks);
            && end.names == s.names[BlobName(w, put.key) := |s.inodes|]
            && end.inodes == s.inodes + [Inode(put.blob, s.now)]
            && Went(s, end, i, PutDone(put, Stored))
  {
    var created, inode := Apply(w, s, CreateTemp(i, false)), |s.inodes|;
    CreateAlone(w, s, i, put, serial);
    WritesAdd(w, created, i, put, serial, inode, chunks);
    PartlyAll(created, i, put, serial, inode);
    var written := Partly(created, i, put, serial, inode, |put.blob|);
    RenameAlone(w, written, i, put, serial, inode);
    OneMoreFile(s, created, put);
    assert s.names[TempName(w, put, serial) := inode] - {TempName(w, put, serial)} == s.names;
  }

  lemma PartlyAll(s: State, i: nat, put: Put, serial: nat, inode: nat)
    requires i < |s.clients| && inode < |s.inodes|
    ensures var written := Partly(s, i, put, serial, inode, |put.blob|);
            && written.names == s.names && Went(s, written, i, PutWriting(put, serial, inode, |put.blob|))
            && written.inodes == s.inodes[inode := Inode(put.blob, s.now)]
  {
    assert put.blob[..|put.blob|] == put.blob;
  }

  lemma OneMoreFile(s: State, created: State, put: Put)
    requires created.inodes == s.inodes + [Inode([], s.now)]
    ensures created.inodes[|s.inodes| := Inode(put.blob, s.now)] == s.inodes + [Inode(put.blob, s.now)]
  {
  }

  /** Without a free temporary name nothing is stored; the leftover file that has
  the name is removed. */
  lemma PutGivesUp(w: World, s: State, i: nat, put: Put, chunks: seq<nat>)
    requires i < |s.clients| && s.clients[i] == Idle && Accepted(w, put)
    requires BlobName(w, put.key) !in s.names && TempName(w, put, s.serial) in s.names
    ensures var end := PutAlone(w, s, i, put, chunks);
            && end.names == s.names - {TempName(w, put, s.serial)} && end.inodes == s.inodes
            && Went(s, end, i, PutDone(put, Failed))
  {
    PutLooks(w, s, i, put);
    RestGivesUp(w, PutLooked(w, s, i, put), i, put, s.serial, chunks);
  }

  lemma RestGivesUp(w: World, s: State, i: nat, put: Put, serial: nat, chunks: seq<nat>)
    requires i < |s.clients| && s.clients[i] == PutCreating(put, serial) && TempName(w, put, serial) in s.names
    ensures var end := PutRest(w, s, i, chunks);
            && end.names == s.names - {TempName(w, put, serial)} && end.inodes == s.inodes
            && Went(s, end, i, PutDone(put, Failed))
  {
    var created := Apply(w, s, CreateTemp(i, false));
    assert created == With(s, i, PutCleaning(put, serial));
    WritesNothing(w, created, i, chunks);
    CleansUp(w, created, i, put, serial);
  }

  lemma CleansUp(w: World, s: State, i: nat, put: Put, serial: nat)
    requires i < |s.clients| && s.clients[i] == PutCleaning(put, serial)
    ensures var end := Apply(w, Apply(w, s, RenameTemp(i, false)), RemoveTemp(i, false));
            && end.names == s.names - {TempName(w, put, serial)} && end.inodes == s.inodes
            && Went(s, end, i, PutDone(put, Failed))
  {
  }

  lemma FileWithAt(s: State, end: State, digest: string, data: string, d: string)
    requires NamesLead(s) && NamesLead(end)
    requires end.names == s.names[Blob(digest) := |s.inodes|] && end.inodes == s.inodes + [Inode(data, s.now)]
    ensures d in FilesOf(end) <==> d in FilesOf(s) || d == digest
    ensures d in FilesOf(end) ==> FilesOf(end)[d] == if d == digest then Entry(data, s.now) else FilesOf(s)[d]
  {
    FileAt(s, d);
    FileAt(end, d);
  }

  lemma FilesWith(s: State, end: State, digest: string, data: string)
    requires NamesLead(s)
    requires end.names == s.names[Blob(digest) := |s.inodes|] && end.inodes == s.inodes + [Inode(data, s.now)]
    ensures NamesLead(end) && FilesOf(end) == FilesOf(s)[digest := Entry(data, s.now)]
  {
    forall d: string ensures SameAt(FilesOf(end), FilesOf(s), digest, Entry(data, s.now), d) {
      FileWithAt(s, end, digest, data, d);
    }
    MapsAgree(FilesOf(end), FilesOf(s), digest, Entry(data, s.now));
  }

  ghost predicate SameAt(after: map<string, Entry>, before: map<string, Entry>, digest: string, entry: Entry, d: string) {
    && (d in after <==> d in before || d == digest)
    && (d in after ==> after[d] == if d == digest then entry else before[d])
  }

  lemma MapsAgree(after: map<string, Entry>, before: map<string, Entry>, digest: string, entry: Entry)
    requires forall d: string :: SameAt(after, before, digest, entry, d)
    ensures after == before[digest := entry]
  {
    forall d: string ensures d in after <==> d in before[digest := entry]
                     ensures d in after ==> after[d] == before[digest := entry][d]
    {
      assert SameAt(after, before, digest, entry, d);
    }
  }

  /** What the sequential server does with an admitted, verified blob. */
  lemma HandlePutAdmitted(w: World, drop: Drop, put: Put, mono: int, wall: nat)
    requires Accepted(w, put) && Admits(drop.times, mono)
    ensures var digest := w.digest(put.key);
            HandlePut(w, drop, put.key, |put.blob|, put.counter, put.blob, mono, wall) ==
              if digest in drop.files then (drop.(times := AfterCall(drop.times, mono)), "EXISTS\n")
              else (Drop(drop.files[digest := Entry(put.blob, wall)], AfterCall(drop.times, mono)), "OK\n")
  {
    assert put.blob[..|put.blob|] == put.blob;
  }

  /** An uninterrupted blob request refines the sequential server, however its
  writes are cut: same files, same answer; only when its temporary name is taken
  it stores nothing and does not answer. */
  lemma PutRefines(w: World, s: State, i: nat, put: Put, chunks: seq<nat>, end: State, times: seq<int>, mono: int)
    requires NamesLead(s) && i < |s.clients| && s.clients[i] == Idle && Accepted(w, put)
    requires Sum(chunks) >= |put.blob| && Admits(times, mono)
    requires end == PutAlone(w, s, i, put, chunks)
    ensures NamesLead(end) && |end.clients| == |s.clients|
    ensures if BlobName(w, put.key) !in s.names && TempName(w, put, s.serial) in s.names then
              end.clients[i] == PutDone(put, Failed) && FilesOf(end) == FilesOf(s)
            else
              && end.clients[i] in {PutDone(put, Stored), PutDone(put, Exists)}
              && HandlePut(w, Drop(FilesOf(s), times), put.key, |put.blob|, put.counter, put.blob, mono, s.now)
                 == (Drop(FilesOf(end), AfterCall(times, mono)), if end.clients[i] == PutDone(put, Stored) then "OK\n" else "EXISTS\n")
  {
    var digest := w.digest(put.key);
    FileAt(s, digest);
    if Blob(digest) in s.names {
      PutFindsBlob(w, s, i, put, chunks);
      HandlePutAdmitted(w, Drop(FilesOf(s), times), put, mono, s.now);
    } else if TempName(w, put, s.serial) in s.names {
      PutGivesUp(w, s, i, put, chunks);
      TempsDoNotCount(s, end, TempName(w, put, s.serial));
    } else {
      PutStoresBlob(w, s, i, put, chunks);
      FilesWith(s, end, digest, put.blob);
      HandlePutAdmitted(w, Drop(FilesOf(s), times), put, mono, s.now);
    }
  }

  lemma TempsDoNotCount(s: State, end: State, temp: Name)
    requires NamesLead(s) && temp.Temp? && end.names == s.names - {temp} && end.inodes == s.inodes
    ensures NamesLead(end) && FilesOf(end) == FilesOf(s)
  {
    forall d: string ensures EqualAt(FilesOf(end), FilesOf(s), d) {
      FileAt(s, d);
      FileAt(end, d);
    }
    MapsEqual(FilesOf(end), FilesOf(s));
  }

  ghost predicate EqualAt(after: map<string, Entry>, before: map<string, Entry>, d: string) {
    (d in after <==> d in before) && (d in after ==> after[d] == before[d])
  }

  lemma MapsEqual(after: map<string, Entry>, before: map<string, Entry>)
    requires forall d: string :: EqualAt(after, before, d)
    ensures after == before
  {
    forall d: string ensures d in after <==> d in before
                     ensures d in after ==> after[d] == before[d]
    {
      assert EqualAt(after, before, d);
    }
  }

  // ---------- get ----------

  /** The steps of a read request in a row: look, and drop what has expired. */
  function LookAlone(w: World, s: State, i: nat, key: string): State {
    Apply(w, Apply(w, Apply(w, s, SubmitGet(i, key)), LookToRead(i)), RemoveExpired(i, false))
  }

  /** Open; one read takes everything, the next meets the end of the file. */
  function FetchAlone(w: World, s: State, i: nat, octets: nat): State {
    Apply(w, Apply(w, Apply(w, s, OpenBlob(i)), ReadBlob(i, octets)), ReadBlob(i, octets))
  }

  lemma LookFinds(w: World, s: State, i: nat, key: string)
    requires i < |s.clients| && s.clients[i] == Idle && IsValidKey(key)
    requires BlobName(w, key) in s.names && !Expired(s, BlobName(w, key))
    ensures LookAlone(w, s, i, key) == With(s, i, GetOpening(key))
  {
    var asked := Apply(w, s, SubmitGet(i, key));
    assert asked == With(s, i, GetChecking(key));
    assert s.clients[i := GetChecking(key)][i := GetOpening(key)] == s.clients[i := GetOpening(key)];
  }

  lemma LookMisses(w: World, s: State, i: nat, key: string)
    requires i < |s.clients| && s.clients[i] == Idle && IsValidKey(key)
    requires BlobName(w, key) !in s.names || Expired(s, BlobName(w, key))
    ensures LookAlone(w, s, i, key) == With(Without(s, BlobName(w, key)), i, GetDone(key, None))
  {
    var asked := Apply(w, s, SubmitGet(i, key));
    assert asked == With(s, i, GetChecking(key));
    var looked := Apply(w, asked, LookToRead(i));
    if BlobName(w, key) in s.names {
      assert looked.clients[i] == GetExpiring(key);
      assert s.clients[i := GetChecking(key)][i := GetExpiring(key)][i := GetDone(key, None)] == s.clients[i := GetDone(key, None)];
    } else {
      assert s.names - {BlobName(w, key)} == s.names;
      assert s.clients[i := GetChecking(key)][i := GetDone(key, None)] == s.clients[i := GetDone(key, None)];
    }
  }

  lemma FetchReads(w: World, s: State, i: nat, key: string, octets: nat)
    requires i < |s.clients| && s.clients[i] == GetOpening(key) && BlobName(w, key) in s.names
    requires s.names[BlobName(w, key)] < |s.inodes| && |s.inodes[s.names[BlobName(w, key)]].data| <= octets
    ensures var end := FetchAlone(w, s, i, octets);
            && end.names == s.names && end.inodes == s.inodes && |end.clients| == |s.clients|
            && end.clients[i] == GetDone(key, Some(s.inodes[s.names[BlobName(w, key)]].data))
  {
    var inode := s.names[BlobName(w, key)];
    var data := s.inodes[inode].data;
    var ready := Apply(w, s, OpenBlob(i));
    assert ready.clients[i] == GetReading(key, inode, []);
    var read := Apply(w, ready, ReadBlob(i, octets));
    if data == [] {
      assert read.clients[i] == GetDone(key, Some([]));
    } else {
      assert [] + data[0..|data|] == data;
      assert read.clients[i] == GetReading(key, inode, data);
    }
  }

  lemma HandleGetMiss(w: World, drop: Drop, key: string, wall: nat)
    requires w.digest(key) in drop.files ==> IsOlderThanTtl(wall, drop.files[w.digest(key)].modified)
    ensures HandleGet(w, drop, key, wall) == (drop.(files := drop.files - {w.digest(key)}), "MISS\n")
  {
    if w.digest(key) !in drop.files {
      assert drop.files - {w.digest(key)} == drop.files;
    }
  }

  /** An uninterrupted read request that finds nothing, or something too old,
  refines the sequential server. */
  lemma GetMissRefines(w: World, s: State, i: nat, key: string, end: State, times: seq<int>)
    requires NamesLead(s) && i < |s.clients| && s.clients[i] == Idle && IsValidKey(key)
    requires BlobName(w, key) !in s.names || Expired(s, BlobName(w, key))
    requires end == LookAlone(w, s, i, key)
    ensures NamesLead(end) && end.clients[i] == GetDone(key, None)
    ensures HandleGet(w, Drop(FilesOf(s), times), key, s.now) == (Drop(FilesOf(end), times), "MISS\n")
  {
    var digest := w.digest(key);
    FileAt(s, digest);
    LookMisses(w, s, i, key);
    FilesWithout(s, end, digest);
    HandleGetMiss(w, Drop(FilesOf(s), times), key, s.now);
  }

  lemma SameFiles(s: State, end: State)
    requires NamesLead(s) && end.names == s.names && end.inodes == s.inodes
    ensures NamesLead(end) && FilesOf(end) == FilesOf(s)
  {
  }

  lemma HandleGetHit(w: World, drop: Drop, key: string, wall: nat)
    requires w.digest(key) in drop.files && !IsOlderThanTtl(wall, drop.files[w.digest(key)].modified)
    ensures HandleGet(w, drop, key, wall) == (drop, GetReply(drop.files[w.digest(key)].data))
  {
  }

  /** And one that finds the blob. */
  lemma GetHitRefines(w: World, s: State, i: nat, key: string, octets: nat, end: State, times: seq<int>)
    requires NamesLead(s) && i < |s.clients| && s.clients[i] == Idle && IsValidKey(key)
    requires BlobName(w, key) in s.names && !Expired(s, BlobName(w, key))
    requires |s.inodes[s.names[BlobName(w, key)]].data| <= octets
    requires end == FetchAlone(w, LookAlone(w, s, i, key), i, octets)
    ensures NamesLead(end) && |end.clients| == |s.clients|
    ensures end.clients[i].GetDone? && end.clients[i].reply.Some?
    ensures HandleGet(w, Drop(FilesOf(s), times), key, s.now)
            == (Drop(FilesOf(end), times), GetReply(end.clients[i].reply.value))
  {
    var digest := w.digest(key);
    FileAt(s, digest);
    LookFinds(w, s, i, key);
    FetchReads(w, With(s, i, GetOpening(key)), i, key, octets);
    SameFiles(s, end);
    HandleGetHit(w, Drop(FilesOf(s), times), key, s.now);
  }

  lemma FilesWithout(s: State, end: State, digest: string)
    requires NamesLead(s) && end.names == s.names - {Blob(digest)} && end.inodes == s.inodes
    ensures NamesLead(end) && FilesOf(end) == FilesOf(s) - {digest}
  {
    forall d: string ensures LeftAt(FilesOf(end), FilesOf(s), digest, d) {
      FileWithoutAt(s, end, digest, d);
    }
    MapsAgreeWithout(FilesOf(end), FilesOf(s), digest);
  }

  lemma FileWithoutAt(s: State, end: State, digest: string, d: string)
    requires NamesLead(s) && NamesLead(end)
    requires end.names == s.names - {Blob(digest)} && end.inodes == s.inodes
    ensures LeftAt(FilesOf(end), FilesOf(s), digest, d)
  {
    FileAt(s, d);
    FileAt(end, d);
  }

  ghost predicate LeftAt(after: map<string, Entry>, before: map<string, Entry>, digest: string, d: string) {
    && (d in after <==> d in before && d != digest)
    && (d in after ==> after[d] == before[d])
  }

  lemma MapsAgreeWithout(after: map<string, Entry>, before: map<string, Entry>, digest: string)
    requires forall d: string :: LeftAt(after, before, digest, d)
    ensures after == before - {digest}
  {
    forall d: string ensures d in after <==> d in before - {digest}
                     ensures d in after ==> after[d] == before[d]
    {
      assert LeftAt(after, before, digest, d);
    }
  }

  // ---------- collection ----------

  /** Look at one blob file after the other and remove it when it is old. */
  function CollectAlone(w: World, s: State, digests: seq<string>): State {
    if digests == [] then s
    else CollectFile(w, CollectAlone(w, s, digests[..|digests| - 1]), digests[|digests| - 1])
  }

  function CollectFile(w: World, s: State, digest: string): State {
    Apply(w, Apply(w, s, GcLook(Blob(digest))), GcRemove(Blob(digest)))
  }

  /** Without the old ones among `digests`. */
  ghost function Young(files: map<string, Entry>, digests: seq<string>, now: nat): map<string, Entry> {
    map d | d in files && !(d in digests && IsOlderThanTtl(now, files[d].modified)) :: files[d]
  }

  ghost function DropIfOld(files: map<string, Entry>, digest: string, now: nat): map<string, Entry> {
    if digest in files && IsOlderThanTtl(now, files[digest].modified) then files - {digest} else files
  }

  lemma YoungStep(files: map<string, Entry>, digests: seq<string>, digest: string, now: nat)
    ensures Young(files, digests + [digest], now) == DropIfOld(Young(files, digests, now), digest, now)
  {
  }

  /** Between collected files: nothing else has changed. */
  ghost predicate Collected(s: State, end: State, digests: seq<string>)
    requires NamesLead(s)
  {
    NamesLead(end) && end.now == s.now && end.sweeping == {} && FilesOf(end) == Young(FilesOf(s), digests, s.now)
  }

  /** Looking at one blob file and removing it when it is old. */
  lemma CollectOne(w: World, s: State, digest: string)
    requires NamesLead(s) && s.sweeping == {}
    ensures var end := CollectFile(w, s, digest);
            && end.now == s.now && end.sweeping == {} && NamesLead(end)
            && FilesOf(end) == DropIfOld(FilesOf(s), digest, s.now)
  {
    FileAt(s, digest);
    CollectEffect(w, s, digest);
    if Expired(s, Blob(digest)) {
      FilesWithout(s, Without(s, Blob(digest)), digest);
    }
  }

  lemma CollectEffect(w: World, s: State, digest: string)
    requires s.sweeping == {}
    ensures CollectFile(w, s, digest) == if Expired(s, Blob(digest)) then Without(s, Blob(digest)) else s
  {
    var looked := Apply(w, s, GcLook(Blob(digest)));
    assert Expired(s, Blob(digest)) ==> looked.sweeping == {Blob(digest)};
    assert {Blob(digest)} - {Blob(digest)} == {};
  }

  lemma CollectNext(w: World, s: State, before: State, init: seq<string>, last: string)
    requires NamesLead(s) && Collected(s, before, init)
    ensures Collected(s, CollectFile(w, before, last), init + [last])
  {
    CollectOne(w, before, last);
    YoungStep(FilesOf(s), init, last, s.now);
  }

  lemma CollectMore(w: World, s: State, init: seq<string>, last: string)
    requires NamesLead(s) && Collected(s, CollectAlone(w, s, init), init)
    ensures Collected(s, CollectAlone(w, s, init + [last]), init + [last])
  {
    assert (init + [last])[..|init|] == init;
    CollectNext(w, s, CollectAlone(w, s, init), init, last);
  }

  lemma {:induction false} CollectRemoves(w: World, s: State, digests: seq<string>)
    requires NamesLead(s) && s.sweeping == {}
    ensures Collected(s, CollectAlone(w, s, digests), digests)
    decreases |digests|
  {
    if digests == [] {
      YoungOfNone(FilesOf(s), s.now);
    } else {
      var init, last := digests[..|digests| - 1], digests[|digests| - 1];
      CollectRemoves(w, s, init);
      CollectMore(w, s, init, last);
      assert digests == init + [last];
    }
  }

  lemma YoungOfNone(files: map<string, Entry>, now: nat)
    ensures Young(files, [], now) == files
  {
  }

  /** A collection that meets every blob file refines the sequential sweep. */
  lemma CollectionRefines(w: World, s: State, digests: seq<string>)
    requires NamesLead(s) && s.sweeping == {}
    requires forall d :: d in FilesOf(s) ==> d in digests
    ensures NamesLead(CollectAlone(w, s, digests))
    ensures FilesOf(CollectAlone(w, s, digests)) == Sweep(FilesOf(s), s.now)
  {
    CollectRemoves(w, s, digests);
  }
}
