/** How long a stored blob stays, with requests and collections interleaved, and
what reads answer meanwhile: a removal decided on earlier can still hit it, and
without one every read within the time to live gets that blob. */
module BlobSurvival {
  import opened Wrappers
  import opened BlobStore
  import opened WriteOnce

  // ---------- exactly when a stored blob survives ----------

  /** A removal was decided on, or a request is past its look. */
  ghost predicate Threatened(w: World, s: State, digest: string) {
    || (exists i :: 0 <= i < |s.clients| && AboutToRemove(w, s.clients[i], digest))
    || Blob(digest) in s.sweeping
    || SomeonePast(w, s, digest)
  }

  ghost predicate AboutToRemove(w: World, c: Client, digest: string) {
    c.GetExpiring? && w.digest(c.key) == digest
  }

  /** The same file under the same name, as it was. */
  ghost predicate Kept(s: State, end: State, digest: string)
    requires HoldsBlob(s, digest)
  {
    && HoldsBlob(end, digest) && end.names[Blob(digest)] == s.names[Blob(digest)]
    && end.inodes[end.names[Blob(digest)]] == s.inodes[s.names[Blob(digest)]]
  }

  ghost predicate InTime(s: State, end: State, digest: string)
    requires HoldsBlob(s, digest)
  {
    !IsOlderThanTtl(end.now, s.inodes[s.names[Blob(digest)]].modified)
  }

  /** Names, files and handlers that matter to the blob after a step. */
  lemma StepKeepsFile(w: World, s: State, a: Action, digest: string)
    requires HoldsBlob(s, digest) && !Threatened(w, s, digest)
    requires forall i :: 0 <= i < |s.clients| ==> InodeOf(s.clients[i]) != Some(s.names[Blob(digest)])
    ensures Kept(s, Apply(w, s, a), digest)
  {
    if a.GcLook? || a.GcRemove? || a.Tick? {
      QuietKeepsFile(w, s, a, digest);
    } else if a.client < |s.clients| {
      assert PastLook(w, s.clients[a.client]) != Some(digest);
      assert !AboutToRemove(w, s.clients[a.client], digest);
      ClientKeepsFile(w, s, a, digest);
    } else {
      NobodySteps(w, s, a);
    }
  }

  lemma QuietKeepsFile(w: World, s: State, a: Action, digest: string)
    requires HoldsBlob(s, digest) && Blob(digest) !in s.sweeping && (a.GcLook? || a.GcRemove? || a.Tick?)
    ensures Kept(s, Apply(w, s, a), digest)
  {
  }

  lemma ClientKeepsFile(w: World, s: State, a: Action, digest: string)
    requires HoldsBlob(s, digest) && !a.GcLook? && !a.GcRemove? && !a.Tick? && a.client < |s.clients|
    requires PastLook(w, s.clients[a.client]) != Some(digest) && !AboutToRemove(w, s.clients[a.client], digest)
    requires InodeOf(s.clients[a.client]) != Some(s.names[Blob(digest)])
    ensures Kept(s, Apply(w, s, a), digest)
  {
  }

  lemma StepThreatensNot(w: World, s: State, a: Action, digest: string)
    requires HoldsBlob(s, digest) && !Threatened(w, s, digest) && InTime(s, s, digest)
    ensures !Threatened(w, Apply(w, s, a), digest)
  {
    var next := Apply(w, s, a);
    SameClients(w, s, a);
    assert !SomeonePast(w, next, digest) by {
      forall i | 0 <= i < |next.clients| ensures PastLook(w, next.clients[i]) != Some(digest) {
        ClientStep(w, s, a, i, digest);
      }
    }
    forall i | 0 <= i < |next.clients| ensures !AboutToRemove(w, next.clients[i], digest) {
      RemovalStep(w, s, a, i, digest);
    }
  }

  /** A file that is not too old is not marked for removal. */
  lemma RemovalStep(w: World, s: State, a: Action, i: nat, digest: string)
    requires i < |s.clients| && HoldsBlob(s, digest) && InTime(s, s, digest)
    ensures AboutToRemove(w, Apply(w, s, a).clients[i], digest) ==> AboutToRemove(w, s.clients[i], digest)
    ensures Blob(digest) in Apply(w, s, a).sweeping ==> Blob(digest) in s.sweeping
  {
    if a.GcLook? || a.GcRemove? || a.Tick? {
      OthersStay(w, s, a, i);
    } else {
      SweepingStays(w, s, a);
      if a.client != i {
        OthersStay(w, s, a, i);
      } else if a.LookToRead? {
        LookMarksNone(w, s, i, digest);
      } else {
        OwnMarksNone(w, s, a, digest);
      }
    }
  }

  lemma SweepingStays(w: World, s: State, a: Action)
    requires !a.GcLook? && !a.GcRemove? && !a.Tick?
    ensures Apply(w, s, a).sweeping == s.sweeping
  {
  }

  lemma LookMarksNone(w: World, s: State, i: nat, digest: string)
    requires i < |s.clients| && HoldsBlob(s, digest) && InTime(s, s, digest)
    ensures var next := Apply(w, s, LookToRead(i));
            |next.clients| == |s.clients| && (AboutToRemove(w, next.clients[i], digest) ==> AboutToRemove(w, s.clients[i], digest))
  {
  }

  lemma OwnMarksNone(w: World, s: State, a: Action, digest: string)
    requires !a.GcLook? && !a.GcRemove? && !a.Tick? && !a.LookToRead? && a.client < |s.clients|
    ensures var next := Apply(w, s, a);
            && |next.clients| == |s.clients|
            && (AboutToRemove(w, next.clients[a.client], digest) ==> AboutToRemove(w, s.clients[a.client], digest))
  {
  }

  lemma StepKeepsBlob(w: World, s: State, a: Action, digest: string)
    requires Inv(w, s) && HoldsBlob(s, digest) && !Threatened(w, s, digest) && InTime(s, s, digest)
    ensures Kept(s, Apply(w, s, a), digest) && !Threatened(w, Apply(w, s, a), digest)
  {
    assert Sealed(w, s, digest, s.names[Blob(digest)]);
    StepKeepsFile(w, s, a, digest);
    StepThreatensNot(w, s, a, digest);
  }

  lemma ClockOnlyAdvances(w: World, s: State, a: Action)
    ensures Apply(w, s, a).now >= s.now
  {
  }

  lemma OlderLater(now: nat, later: nat, modified: nat)
    requires now <= later && IsOlderThanTtl(now, modified)
    ensures IsOlderThanTtl(later, modified)
  {
    assert (now - modified) / NANOS <= (later - modified) / NANOS;
  }

  lemma {:induction false} RunKeepsBlob(w: World, s: State, actions: seq<Action>, digest: string)
    requires Inv(w, s) && HoldsBlob(s, digest) && !Threatened(w, s, digest)
    requires InTime(s, After(w, s, actions), digest)
    ensures Kept(s, After(w, s, actions), digest) && !Threatened(w, After(w, s, actions), digest)
    decreases |actions|
  {
    if actions != [] {
      var k := |actions| - 1;
      var before := After(w, s, actions[..k]);
      ClockOnlyAdvances(w, before, actions[k]);
      var modified := s.inodes[s.names[Blob(digest)]].modified;
      if IsOlderThanTtl(before.now, modified) {
        OlderLater(before.now, After(w, s, actions).now, modified);
      }
      RunKeepsBlob(w, s, actions[..k], digest);
      AfterKeepsInv(w, s, actions[..k]);
      StepKeepsBlob(w, before, actions[k], digest);
    }
  }

  lemma AfterOne(w: World, s: State, a: Action)
    ensures After(w, s, [a]) == Apply(w, s, a)
  {
    assert [a][..0] == [];
  }

  /** The step that makes the threat true. */
  lemma ThreatStrikes(w: World, s: State, digest: string) returns (run: seq<Action>)
    requires Inv(w, s) && AllReady(w, s) && HoldsBlob(s, digest) && Threatened(w, s, digest)
    ensures After(w, s, run).now == s.now && !Kept(s, After(w, s, run), digest)
  {
    if Blob(digest) in s.sweeping {
      run := [GcRemove(Blob(digest))];
      SweepStrikes(w, s, digest);
      AfterOne(w, s, GcRemove(Blob(digest)));
    } else if i :| 0 <= i < |s.clients| && AboutToRemove(w, s.clients[i], digest) {
      run := [RemoveExpired(i, false)];
      ReaderStrikes(w, s, i, digest);
      AfterOne(w, s, RemoveExpired(i, false));
    } else {
      var i :| 0 <= i < |s.clients| && PastLook(w, s.clients[i]) == Some(digest);
      run := RequestStrikes(w, s, i, digest);
    }
  }

  lemma SweepStrikes(w: World, s: State, digest: string)
    requires Blob(digest) in s.sweeping
    ensures var end := Apply(w, s, GcRemove(Blob(digest))); end.now == s.now && Blob(digest) !in end.names
  {
  }

  lemma ReaderStrikes(w: World, s: State, i: nat, digest: string)
    requires i < |s.clients| && AboutToRemove(w, s.clients[i], digest)
    ensures var end := Apply(w, s, RemoveExpired(i, false)); end.now == s.now && Blob(digest) !in end.names
  {
  }

  lemma RequestStrikes(w: World, s: State, i: nat, digest: string) returns (run: seq<Action>)
    requires Inv(w, s) && AllReady(w, s) && HoldsBlob(s, digest)
    requires i < |s.clients| && PastLook(w, s.clients[i]) == Some(digest)
    ensures After(w, s, run).now == s.now && !Kept(s, After(w, s, run), digest)
  {
    var end: State;
    run, end := Finishes(w, s, i, digest);
  }

  /** A stored blob stays, the same file under the same name, until its time to
  live is over, however requests and collections go on, if and only if at this
  moment no request is past its look for the digest, no read has decided to
  remove the file, and neither has the collector. */
  lemma SurvivesIff(w: World, s: State, digest: string)
    requires Inv(w, s) && AllReady(w, s) && HoldsBlob(s, digest) && InTime(s, s, digest)
    ensures (forall actions :: InTime(s, After(w, s, actions), digest) ==> Kept(s, After(w, s, actions), digest))
            <==> !Threatened(w, s, digest)
  {
    if Threatened(w, s, digest) {
      var run := ThreatStrikes(w, s, digest);
      assert InTime(s, After(w, s, run), digest);
    } else {
      forall actions | InTime(s, After(w, s, actions), digest) ensures Kept(s, After(w, s, actions), digest) {
        RunKeepsBlob(w, s, actions, digest);
      }
    }
  }

  // ---------- what a later get answers ----------

  /** The handler serves a read of the digest and is past its look. */
  ghost predicate ReadsPastLook(w: World, c: Client, digest: string) {
    (c.GetExpiring? || c.GetOpening? || c.GetReading? || c.GetDone?) && w.digest(c.key) == digest
  }

  /** If the handler reads the digest it reads this file, and if it is done it
  answers this data; it has not found the blob missing or too old. */
  ghost predicate OnTrack(w: World, c: Client, digest: string, inode: nat, data: string) {
    && !AboutToRemove(w, c, digest)
    && (c.GetReading? && w.digest(c.key) == digest ==> c.inode == inode)
    && (c.GetDone? && w.digest(c.key) == digest ==> c.reply == Some(data))
  }

  lemma NotYetOnTrack(w: World, c: Client, digest: string, inode: nat, data: string)
    requires !ReadsPastLook(w, c, digest)
    ensures OnTrack(w, c, digest, inode, data)
  {
  }

  lemma TrackStep(w: World, s: State, a: Action, digest: string)
    requires Inv(w, s) && HoldsBlob(s, digest) && InTime(s, s, digest)
    requires !a.GcLook? && !a.GcRemove? && !a.Tick? && a.client < |s.clients|
    requires OnTrack(w, s.clients[a.client], digest, s.names[Blob(digest)], s.inodes[s.names[Blob(digest)]].data)
    ensures |Apply(w, s, a).clients| == |s.clients|
    ensures OnTrack(w, Apply(w, s, a).clients[a.client], digest, s.names[Blob(digest)], s.inodes[s.names[Blob(digest)]].data)
  {
    assert ClientOk(w, s, s.clients[a.client]);
    SameClients(w, s, a);
    if a.ReadBlob? {
      ReadOnTrack(w, s, a.client, a.octets, digest);
    } else {
      OtherOnTrack(w, s, a, digest);
    }
  }

  lemma ReadOnTrack(w: World, s: State, i: nat, octets: nat, digest: string)
    requires i < |s.clients| && HoldsBlob(s, digest) && ClientOk(w, s, s.clients[i])
    requires OnTrack(w, s.clients[i], digest, s.names[Blob(digest)], s.inodes[s.names[Blob(digest)]].data)
    ensures var next := Apply(w, s, ReadBlob(i, octets));
            && i < |next.clients|
            && OnTrack(w, next.clients[i], digest, s.names[Blob(digest)], s.inodes[s.names[Blob(digest)]].data)
  {
    var c := s.clients[i];
    if c.GetReading? {
      ReadToTheEnd(c.got, s.inodes[c.inode].data);
    }
  }

  lemma ReadToTheEnd(got: string, data: string)
    requires got <= data
    ensures |got| == |data| ==> got == data
  {
  }

  lemma OtherOnTrack(w: World, s: State, a: Action, digest: string)
    requires !a.GcLook? && !a.GcRemove? && !a.Tick? && !a.ReadBlob? && a.client < |s.clients|
    requires HoldsBlob(s, digest) && InTime(s, s, digest)
    requires OnTrack(w, s.clients[a.client], digest, s.names[Blob(digest)], s.inodes[s.names[Blob(digest)]].data)
    ensures var next := Apply(w, s, a);
            && a.client < |next.clients|
            && OnTrack(w, next.clients[a.client], digest, s.names[Blob(digest)], s.inodes[s.names[Blob(digest)]].data)
  {
    if a.LookToRead? {
      LookOnTrack(w, s, a.client, digest);
    } else if a.OpenBlob? {
      OpenOnTrack(w, s, a.client, digest);
    } else {
      RestOnTrack(w, s, a, digest, s.names[Blob(digest)], s.inodes[s.names[Blob(digest)]].data);
    }
  }

  lemma LookOnTrack(w: World, s: State, i: nat, digest: string)
    requires i < |s.clients| && HoldsBlob(s, digest) && InTime(s, s, digest)
    requires OnTrack(w, s.clients[i], digest, s.names[Blob(digest)], s.inodes[s.names[Blob(digest)]].data)
    ensures var next := Apply(w, s, LookToRead(i));
            && i < |next.clients|
            && OnTrack(w, next.clients[i], digest, s.names[Blob(digest)], s.inodes[s.names[Blob(digest)]].data)
  {
  }

  lemma OpenOnTrack(w: World, s: State, i: nat, digest: string)
    requires i < |s.clients| && HoldsBlob(s, digest)
    requires OnTrack(w, s.clients[i], digest, s.names[Blob(digest)], s.inodes[s.names[Blob(digest)]].data)
    ensures var next := Apply(w, s, OpenBlob(i));
            && i < |next.clients|
            && OnTrack(w, next.clients[i], digest, s.names[Blob(digest)], s.inodes[s.names[Blob(digest)]].data)
  {
  }

  lemma RestOnTrack(w: World, s: State, a: Action, digest: string, inode: nat, data: string)
    requires !a.GcLook? && !a.GcRemove? && !a.Tick? && !a.ReadBlob? && !a.LookToRead? && !a.OpenBlob? && a.client < |s.clients|
    requires OnTrack(w, s.clients[a.client], digest, inode, data) && !AboutToRemove(w, s.clients[a.client], digest)
    ensures a.client < |Apply(w, s, a).clients| && OnTrack(w, Apply(w, s, a).clients[a.client], digest, inode, data)
  {
  }

  lemma {:induction false} RunOnTrack(w: World, s: State, actions: seq<Action>, digest: string, i: nat)
    requires Inv(w, s) && HoldsBlob(s, digest) && !Threatened(w, s, digest) && InTime(s, After(w, s, actions), digest)
    requires i < |s.clients| && !ReadsPastLook(w, s.clients[i], digest)
    ensures i < |After(w, s, actions).clients|
    ensures OnTrack(w, After(w, s, actions).clients[i], digest, s.names[Blob(digest)], s.inodes[s.names[Blob(digest)]].data)
    decreases |actions|
  {
    if actions == [] {
      NotYetOnTrack(w, s.clients[i], digest, s.names[Blob(digest)], s.inodes[s.names[Blob(digest)]].data);
    } else {
      var k := |actions| - 1;
      var before := After(w, s, actions[..k]);
      EarlierInTime(w, s, actions, digest);
      RunOnTrack(w, s, actions[..k], digest, i);
      RunKeepsBlob(w, s, actions[..k], digest);
      AfterKeepsInv(w, s, actions[..k]);
      OneOnTrack(w, s, before, actions[k], digest, i);
    }
  }

  lemma OneOnTrack(w: World, s: State, before: State, a: Action, digest: string, i: nat)
    requires Inv(w, before) && HoldsBlob(s, digest) && Kept(s, before, digest) && InTime(s, before, digest) && i < |before.clients|
    requires OnTrack(w, before.clients[i], digest, s.names[Blob(digest)], s.inodes[s.names[Blob(digest)]].data)
    ensures i < |Apply(w, before, a).clients|
    ensures OnTrack(w, Apply(w, before, a).clients[i], digest, s.names[Blob(digest)], s.inodes[s.names[Blob(digest)]].data)
  {
    if a.GcLook? || a.GcRemove? || a.Tick? || a.client != i {
      OthersStay(w, before, a, i);
    } else {
      TrackStep(w, before, a, digest);
    }
  }

  lemma EarlierInTime(w: World, s: State, actions: seq<Action>, digest: string)
    requires actions != [] && HoldsBlob(s, digest) && InTime(s, After(w, s, actions), digest)
    ensures InTime(s, After(w, s, actions[..|actions| - 1]), digest)
  {
    var k := |actions| - 1;
    var before := After(w, s, actions[..k]);
    var modified := s.inodes[s.names[Blob(digest)]].modified;
    ClockOnlyAdvances(w, before, actions[k]);
    if IsOlderThanTtl(before.now, modified) {
      OlderLater(before.now, After(w, s, actions).now, modified);
    }
  }

  /** What a rename publishes is the whole blob of its request. */
  lemma RenamePublishes(w: World, s: State, j: nat, put: Put)
    requires Inv(w, s) && j < |s.clients| && s.clients[j].PutWriting? && s.clients[j].put == put
    requires Apply(w, s, RenameTemp(j, false)).clients[j] == PutDone(put, Stored)
    ensures var next := Apply(w, s, RenameTemp(j, false));
            HoldsBlob(next, w.digest(put.key)) && next.inodes[next.names[BlobName(w, put.key)]].data == put.blob
  {
    RenameSeals(w, s, j);
  }

  /** Put, then get, under interleaving: once a request has stored its blob, and no
  removal is pending and no other request past its look, then within the time to
  live every read that looks from then on, whatever runs between its steps, answers
  that blob if it answers: none finds it missing, too old, or another one. */
  lemma PutThenGet(w: World, s: State, j: nat, put: Put, actions: seq<Action>, i: nat)
    requires Inv(w, s) && j < |s.clients| && s.clients[j].PutWriting? && s.clients[j].put == put
    requires Apply(w, s, RenameTemp(j, false)).clients[j] == PutDone(put, Stored)
    requires var stored := Apply(w, s, RenameTemp(j, false));
             && i < |stored.clients| && !ReadsPastLook(w, stored.clients[i], w.digest(put.key))
             && !Threatened(w, stored, w.digest(put.key))
             && HoldsBlob(stored, w.digest(put.key))
             && InTime(stored, After(w, stored, actions), w.digest(put.key))
    ensures var end := After(w, Apply(w, s, RenameTemp(j, false)), actions);
            && i < |end.clients|
            && !(end.clients[i].GetExpiring? && w.digest(end.clients[i].key) == w.digest(put.key))
            && (end.clients[i].GetDone? && w.digest(end.clients[i].key) == w.digest(put.key) ==> end.clients[i].reply == Some(put.blob))
  {
    var stored := Apply(w, s, RenameTemp(j, false));
    RenamePublishes(w, s, j, put);
    StepKeepsInv(w, s, RenameTemp(j, false));
    RunOnTrack(w, stored, actions, w.digest(put.key), i);
  }

  lemma DataStays(w: World, s: State, a: Action, inode: nat)
    requires inode < |s.inodes| && Unwritten(s, inode)
    ensures inode < |Apply(w, s, a).inodes| && Apply(w, s, a).inodes[inode] == s.inodes[inode]
  {
    if !a.GcLook? && !a.GcRemove? && !a.Tick? && a.client < |s.clients| {
      assert InodeOf(s.clients[a.client]) != Some(inode);
    }
  }

  /** The handler reads the file, or has answered its data. */
  ghost predicate ReadsOrRead(s: State, i: nat, key: string, inode: nat, data: string) {
    && i < |s.clients|
    && if s.clients[i].GetReading? then
         s.clients[i].key == key && s.clients[i].inode == inode && inode < |s.inodes| && s.inodes[inode].data == data
       else s.clients[i] == GetDone(key, Some(data))
  }

  lemma ReadingGoesOn(w: World, s: State, a: Action, i: nat, key: string, inode: nat, data: string)
    requires Inv(w, s) && ReadsOrRead(s, i, key, inode, data) && s.clients[i].GetReading? && a != Release(i)
    ensures ReadsOrRead(Apply(w, s, a), i, key, inode, data)
  {
    var c := s.clients[i];
    assert ClientOk(w, s, c);
    DataStays(w, s, a, inode);
    if a.GcLook? || a.GcRemove? || a.Tick? || a.client != i {
      OthersStay(w, s, a, i);
    } else {
      ReadToTheEnd(c.got, data);
      ReadingOwnStep(w, s, a, inode);
    }
  }

  lemma ReadingOwnStep(w: World, s: State, a: Action, inode: nat)
    requires !a.GcLook? && !a.GcRemove? && !a.Tick? && !a.Release? && a.client < |s.clients|
    requires s.clients[a.client].GetReading? && s.clients[a.client].inode == inode < |s.inodes|
    ensures var c, next := s.clients[a.client], Apply(w, s, a);
            && |next.clients| == |s.clients|
            && ((next.clients[a.client] == GetDone(c.key, Some(c.got)) && |c.got| == |s.inodes[inode].data|)
                || (next.clients[a.client].GetReading? && next.clients[a.client].key == c.key && next.clients[a.client].inode == inode))
  {
  }

  lemma DoneStaysDone(w: World, s: State, a: Action, i: nat)
    requires i < |s.clients| && s.clients[i].GetDone? && a != Release(i)
    ensures i < |Apply(w, s, a).clients| && Apply(w, s, a).clients[i] == s.clients[i]
  {
    if a.GcLook? || a.GcRemove? || a.Tick? || a.client != i {
      OthersStay(w, s, a, i);
    }
  }

  /** A read that has opened the file answers it in full, also after the time to
  live, and whatever becomes of the name. */
  lemma {:induction false} OpenedGetAnswers(w: World, s: State, actions: seq<Action>, i: nat, key: string, inode: nat, data: string)
    requires Inv(w, s) && ReadsOrRead(s, i, key, inode, data) && Release(i) !in actions
    ensures ReadsOrRead(After(w, s, actions), i, key, inode, data)
    decreases |actions|
  {
    if actions != [] {
      var k := |actions| - 1;
      var before := After(w, s, actions[..k]);
      OpenedGetAnswers(w, s, actions[..k], i, key, inode, data);
      assert actions[k] in actions;
      if before.clients[i].GetReading? {
        AfterKeepsInv(w, s, actions[..k]);
        ReadingGoesOn(w, before, actions[k], i, key, inode, data);
      } else {
        DoneStaysDone(w, before, actions[k], i);
      }
    }
  }
}
