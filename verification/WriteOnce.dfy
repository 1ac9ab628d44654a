/** When a stored blob is replaced, with requests interleaved: exactly when a later
request under the same digest can rename its own file onto it. */
module WriteOnce {
  import opened Wrappers
  import opened BlobStore

  // ---------- who can still touch the blob of a digest ----------

  /** The digest under which a handler past its look for the blob will store. */
  function PastLook(w: World, c: Client): Option<string> {
    if c.PutCreating? || c.PutWriting? then Some(w.digest(c.put.key)) else None
  }

  /** No two handlers are between look and rename for one digest. */
  ghost predicate OneAtATime(w: World, s: State) {
    forall i, j :: 0 <= i < |s.clients| && 0 <= j < |s.clients| && i != j && PastLook(w, s.clients[i]).Some? ==>
      PastLook(w, s.clients[i]) != PastLook(w, s.clients[j])
  }

  ghost predicate SomeonePast(w: World, s: State, digest: string) {
    exists i :: 0 <= i < |s.clients| && PastLook(w, s.clients[i]) == Some(digest)
  }

  ghost predicate TwoPast(w: World, s: State, digest: string) {
    exists i, j :: 0 <= i < |s.clients| && 0 <= j < |s.clients| && i != j
      && PastLook(w, s.clients[i]) == Some(digest) && PastLook(w, s.clients[j]) == Some(digest)
  }

  /** The temporary name of the handler is as its next step needs it: free to be
  created, or there to be renamed. */
  ghost predicate Ready(w: World, s: State, c: Client) {
    match c
    case PutCreating(put, serial) => TempName(w, put, serial) !in s.names
    case PutWriting(put, serial, _, _) => TempName(w, put, serial) in s.names
    case _ => true
  }

  ghost predicate AllReady(w: World, s: State) {
    forall i :: 0 <= i < |s.clients| ==> Ready(w, s, s.clients[i])
  }

  /** From one state to the next the name of a blob leads to another file. */
  ghost predicate Replaces(before: State, after: State, digest: string) {
    Blob(digest) in before.names && Blob(digest) in after.names && before.names[Blob(digest)] != after.names[Blob(digest)]
  }

  // ---------- what one step can do ----------

  /** A blob name appears, or leads elsewhere, only by the rename of a handler
  past its look. */
  lemma NamesStep(w: World, s: State, a: Action, digest: string)
    ensures var next := Apply(w, s, a);
            Blob(digest) in next.names ==>
              || (Blob(digest) in s.names && next.names[Blob(digest)] == s.names[Blob(digest)])
              || (a.RenameTemp? && a.client < |s.clients| == |next.clients|
                  && PastLook(w, s.clients[a.client]) == Some(digest) && PastLook(w, next.clients[a.client]) == None)
  {
  }

  /** A handler gets past its look only where the blob is not there. */
  lemma ClientStep(w: World, s: State, a: Action, j: nat, digest: string)
    requires j < |s.clients|
    ensures var next := Apply(w, s, a);
            && |next.clients| == |s.clients|
            && (PastLook(w, next.clients[j]) == Some(digest) ==>
                  || PastLook(w, s.clients[j]) == Some(digest)
                  || (a.LookForBlob? && Blob(digest) !in s.names && next.names == s.names))
  {
    if a.GcLook? || a.GcRemove? || a.Tick? || a.client != j {
      OthersStay(w, s, a, j);
    } else if a.LookForBlob? {
      LookStep(w, s, j, digest);
    } else {
      OwnStep(w, s, a, digest);
    }
  }

  lemma OthersStay(w: World, s: State, a: Action, j: nat)
    requires j < |s.clients| && (a.GcLook? || a.GcRemove? || a.Tick? || a.client != j)
    ensures var next := Apply(w, s, a); |next.clients| == |s.clients| && next.clients[j] == s.clients[j]
  {
  }

  lemma LookStep(w: World, s: State, i: nat, digest: string)
    requires i < |s.clients|
    ensures var next := Apply(w, s, LookForBlob(i));
            && |next.clients| == |s.clients| && next.names == s.names
            && (PastLook(w, next.clients[i]) == Some(digest) ==> PastLook(w, s.clients[i]) == Some(digest) || Blob(digest) !in s.names)
  {
  }

  lemma OwnStep(w: World, s: State, a: Action, digest: string)
    requires !a.GcLook? && !a.GcRemove? && !a.Tick? && !a.LookForBlob? && a.client < |s.clients|
    ensures var next := Apply(w, s, a);
            && |next.clients| == |s.clients|
            && (PastLook(w, next.clients[a.client]) == Some(digest) ==> PastLook(w, s.clients[a.client]) == Some(digest))
  {
  }

  // ---------- one at a time ----------

  /** Whoever is past its look for a digest, its blob is not there. */
  ghost predicate Guarded(w: World, s: State) {
    forall i, digest :: 0 <= i < |s.clients| && PastLook(w, s.clients[i]) == Some(digest) ==> Blob(digest) !in s.names
  }

  lemma StepKeepsGuard(w: World, s: State, a: Action)
    requires OneAtATime(w, s) && Guarded(w, s)
    ensures Guarded(w, Apply(w, s, a))
    ensures forall digest :: !Replaces(s, Apply(w, s, a), digest)
  {
    var next := Apply(w, s, a);
    forall i, digest | 0 <= i < |next.clients| && PastLook(w, next.clients[i]) == Some(digest)
      ensures Blob(digest) !in next.names
    {
      SameClients(w, s, a);
      ClientStep(w, s, a, i, digest);
      NamesStep(w, s, a, digest);
    }
    forall digest ensures !Replaces(s, next, digest) {
      NamesStep(w, s, a, digest);
    }
  }

  lemma SameClients(w: World, s: State, a: Action)
    ensures |Apply(w, s, a).clients| == |s.clients|
  {
  }

  /** Every state of a run, from the first to the last. */
  function States(w: World, s: State, actions: seq<Action>): (states: seq<State>)
    ensures |states| == |actions| + 1
  {
    if actions == [] then [s]
    else
      var states := States(w, s, actions[..|actions| - 1]);
      states + [Apply(w, states[|states| - 1], actions[|actions| - 1])]
  }

  ghost predicate AlwaysOneAtATime(w: World, states: seq<State>) {
    forall k :: 0 <= k < |states| ==> OneAtATime(w, states[k])
  }

  ghost predicate ReplacedAmong(states: seq<State>, digest: string) {
    exists k :: 0 <= k < |states| - 1 && Replaces(states[k], states[k + 1], digest)
  }

  /** Some step of the run replaces the blob. */
  ghost predicate ReplacedIn(w: World, s: State, actions: seq<Action>, digest: string) {
    ReplacedAmong(States(w, s, actions), digest)
  }

  lemma {:induction false} StatesEnd(w: World, s: State, actions: seq<Action>)
    ensures States(w, s, actions)[|actions|] == After(w, s, actions)
    decreases |actions|
  {
    if actions != [] {
      StatesEnd(w, s, actions[..|actions| - 1]);
    }
  }

  lemma ReplacedSnoc(states: seq<State>, next: State, digest: string)
    requires states != []
    ensures ReplacedAmong(states + [next], digest) <==>
            ReplacedAmong(states, digest) || Replaces(states[|states| - 1], next, digest)
  {
    var all, n := states + [next], |states|;
    if ReplacedAmong(states, digest) {
      var k :| 0 <= k < n - 1 && Replaces(states[k], states[k + 1], digest);
      ReplacedAt(all, k, digest);
    }
    if Replaces(states[n - 1], next, digest) {
      ReplacedAt(all, n - 1, digest);
    }
    if ReplacedAmong(all, digest) {
      var k :| 0 <= k < n && Replaces(all[k], all[k + 1], digest);
      if k < n - 1 {
        ReplacedAt(states, k, digest);
      }
    }
  }

  lemma ReplacedAt(states: seq<State>, k: nat, digest: string)
    requires k + 1 < |states| && Replaces(states[k], states[k + 1], digest)
    ensures ReplacedAmong(states, digest)
  {
  }

  /** One more action. */
  lemma ReplacedStep(w: World, s: State, actions: seq<Action>, digest: string)
    requires actions != []
    ensures var init, last := actions[..|actions| - 1], actions[|actions| - 1];
            ReplacedIn(w, s, actions, digest) <==>
              ReplacedIn(w, s, init, digest) || Replaces(After(w, s, init), Apply(w, After(w, s, init), last), digest)
  {
    var init := actions[..|actions| - 1];
    StatesEnd(w, s, init);
    ReplacedSnoc(States(w, s, init), Apply(w, After(w, s, init), actions[|actions| - 1]), digest);
  }

  lemma {:induction false} GuardKept(w: World, s: State, actions: seq<Action>, digest: string)
    requires Guarded(w, s) && AlwaysOneAtATime(w, States(w, s, actions))
    ensures Guarded(w, After(w, s, actions)) && !ReplacedIn(w, s, actions, digest)
    decreases |actions|
  {
    if actions != [] {
      var init := actions[..|actions| - 1];
      var states, all := States(w, s, init), States(w, s, actions);
      assert forall k :: 0 <= k < |states| ==> all[k] == states[k];
      GuardKept(w, s, init, digest);
      StatesEnd(w, s, init);
      assert OneAtATime(w, all[|init|]);
      StepKeepsGuard(w, After(w, s, init), actions[|actions| - 1]);
      ReplacedStep(w, s, actions, digest);
    }
  }

  /** Write-once under interleaving: in a run in which no two requests are at any
  time between look and rename for one digest, no step replaces a blob. */
  lemma NeverReplaced(w: World, s: State, actions: seq<Action>, digest: string)
    requires Start(w, s) && AlwaysOneAtATime(w, States(w, s, actions))
    ensures !ReplacedIn(w, s, actions, digest)
  {
    GuardKept(w, s, actions, digest);
  }

  // ---------- a handler past its look can store ----------

  lemma {:induction false} AfterConcat(w: World, s: State, a: seq<Action>, b: seq<Action>)
    ensures After(w, s, a + b) == After(w, After(w, s, a), b)
    decreases |b|
  {
    if b == [] {
      assert a + b == a;
    } else {
      assert (a + b)[..|a + b| - 1] == a + b[..|b| - 1];
      AfterConcat(w, s, a, b[..|b| - 1]);
    }
  }

  lemma {:induction false} AfterKeepsInv(w: World, s: State, actions: seq<Action>)
    requires Inv(w, s)
    ensures Inv(w, After(w, s, actions))
    decreases |actions|
  {
    if actions != [] {
      AfterKeepsInv(w, s, actions[..|actions| - 1]);
      StepKeepsInv(w, After(w, s, actions[..|actions| - 1]), actions[|actions| - 1]);
    }
  }

  /** The steps that are left of a request past its look. */
  function Finish(i: nat, octets: nat): seq<Action> {
    [CreateTemp(i, false), WriteTemp(i, octets, false), RenameTemp(i, false)]
  }

  lemma AfterSnoc(w: World, s: State, actions: seq<Action>, k: nat)
    requires k < |actions|
    ensures After(w, s, actions[..k + 1]) == Apply(w, After(w, s, actions[..k]), actions[k])
  {
    assert actions[..k + 1][..k] == actions[..k];
  }

  lemma AfterFinish(w: World, s: State, i: nat, octets: nat)
    ensures After(w, s, Finish(i, octets)) ==
            Apply(w, Apply(w, Apply(w, s, CreateTemp(i, false)), WriteTemp(i, octets, false)), RenameTemp(i, false))
  {
    var all := Finish(i, octets);
    AfterSnoc(w, s, all, 0);
    AfterSnoc(w, s, all, 1);
    AfterSnoc(w, s, all, 2);
    assert all[..0] == [] && all[..3] == all;
  }

  /** What the whole of the rest does. */
  ghost predicate StoresNow(w: World, s: State, end: State, i: nat, put: Put, serial: nat) {
    && i < |s.clients| && end.clients == s.clients[i := PutDone(put, Stored)]
    && end.now == s.now && end.sweeping == s.sweeping
    && BlobName(w, put.key) in end.names && end.names[BlobName(w, put.key)] < |end.inodes|
    && end.inodes[end.names[BlobName(w, put.key)]].data == put.blob
    && (BlobName(w, put.key) in s.names ==> end.names[BlobName(w, put.key)] != s.names[BlobName(w, put.key)])
    && (forall n :: n != BlobName(w, put.key) && n != TempName(w, put, serial) ==> (n in end.names <==> n in s.names))
  }

  lemma CreatesTemp(w: World, s: State, i: nat)
    requires Inv(w, s) && i < |s.clients| && s.clients[i].PutCreating? && Ready(w, s, s.clients[i])
    ensures var PutCreating(put, serial) := s.clients[i];
            var next := Apply(w, s, CreateTemp(i, false));
            && next == With(s, i, PutWriting(put, serial, |s.inodes|, 0))
                         .(names := s.names[TempName(w, put, serial) := |s.inodes|], inodes := s.inodes + [Inode([], s.now)])
            && Inv(w, next) && Ready(w, next, next.clients[i])
  {
    StepKeepsInv(w, s, CreateTemp(i, false));
  }

  lemma WritesAll(w: World, s: State, i: nat)
    requires Inv(w, s) && i < |s.clients| && s.clients[i].PutWriting?
    ensures var PutWriting(put, serial, inode, written) := s.clients[i];
            var next := Apply(w, s, WriteTemp(i, |put.blob|, false));
            && next == With(s, i, PutWriting(put, serial, inode, |put.blob|))
                         .(inodes := s.inodes[inode := Inode(put.blob, s.now)])
            && Inv(w, next)
  {
    assert ClientOk(w, s, s.clients[i]);
    var put := s.clients[i].put;
    assert put.blob[..|put.blob|] == put.blob;
    StepKeepsInv(w, s, WriteTemp(i, |put.blob|, false));
  }

  lemma Renames(w: World, s: State, i: nat)
    requires Inv(w, s) && i < |s.clients| && s.clients[i].PutWriting? && Ready(w, s, s.clients[i])
    requires s.clients[i].written == |s.clients[i].put.blob|
    ensures var PutWriting(put, serial, inode, written) := s.clients[i];
            StoresNow(w, s, Apply(w, s, RenameTemp(i, false)), i, put, serial)
  {
    var PutWriting(put, serial, inode, written) := s.clients[i];
    assert ClientOk(w, s, s.clients[i]);
    assert put.blob[..|put.blob|] == put.blob;
    if BlobName(w, put.key) in s.names {
      assert Sealed(w, s, w.digest(put.key), s.names[BlobName(w, put.key)]);
      assert InodeOf(s.clients[i]) == Some(inode);
    }
  }

  /** Creating does nothing when the file has been created already. */
  lemma WritesThenRenames(w: World, s: State, i: nat)
    requires Inv(w, s) && i < |s.clients| && s.clients[i].PutWriting? && Ready(w, s, s.clients[i])
    ensures var PutWriting(put, serial, _, _) := s.clients[i];
            StoresNow(w, s, Apply(w, Apply(w, s, WriteTemp(i, |put.blob|, false)), RenameTemp(i, false)), i, put, serial)
  {
    var PutWriting(put, serial, inode, _) := s.clients[i];
    WritesAll(w, s, i);
    var written := Apply(w, s, WriteTemp(i, |put.blob|, false));
    Renames(w, written, i);
    assert s.clients[i := PutWriting(put, serial, inode, |put.blob|)][i := PutDone(put, Stored)] == s.clients[i := PutDone(put, Stored)];
  }

  lemma FinishStores(w: World, s: State, i: nat)
    requires Inv(w, s) && i < |s.clients| && PastLook(w, s.clients[i]).Some? && Ready(w, s, s.clients[i])
    ensures var c := s.clients[i];
            StoresNow(w, s, After(w, s, Finish(i, |c.put.blob|)), i, c.put, c.serial)
  {
    var put := s.clients[i].put;
    AfterFinish(w, s, i, |put.blob|);
    if s.clients[i].PutCreating? {
      FinishCreating(w, s, i);
    } else {
      WritingStays(w, s, i);
      WritesThenRenames(w, s, i);
    }
  }

  lemma WritingStays(w: World, s: State, i: nat)
    requires i < |s.clients| && s.clients[i].PutWriting?
    ensures Apply(w, s, CreateTemp(i, false)) == s
  {
  }

  lemma FinishCreating(w: World, s: State, i: nat)
    requires Inv(w, s) && i < |s.clients| && s.clients[i].PutCreating? && Ready(w, s, s.clients[i])
    ensures var PutCreating(put, serial) := s.clients[i];
            StoresNow(w, s, Apply(w, Apply(w, Apply(w, s, CreateTemp(i, false)), WriteTemp(i, |put.blob|, false)), RenameTemp(i, false)),
                      i, put, serial)
  {
    var PutCreating(put, serial) := s.clients[i];
    CreatesTemp(w, s, i);
    var created := Apply(w, s, CreateTemp(i, false));
    WritesThenRenames(w, created, i);
    assert s.clients[i := created.clients[i]][i := PutDone(put, Stored)] == s.clients[i := PutDone(put, Stored)];
    if BlobName(w, put.key) in s.names {
      assert created.names[BlobName(w, put.key)] == s.names[BlobName(w, put.key)];
    }
  }

  lemma StoringKeepsReady(w: World, s: State, end: State, i: nat, put: Put, serial: nat)
    requires Inv(w, s) && AllReady(w, s) && StoresNow(w, s, end, i, put, serial)
    requires SerialOf(s.clients[i]) == Some(serial)
    ensures AllReady(w, end)
  {
    forall j | 0 <= j < |end.clients| ensures Ready(w, end, end.clients[j]) {
      if j != i && PastLook(w, s.clients[j]).Some? {
        assert Ready(w, s, s.clients[j]) && SerialOf(s.clients[j]) != SerialOf(s.clients[i]);
      }
    }
  }

  // ---------- exactly when a blob can be replaced ----------

  ghost predicate NoLooks(actions: seq<Action>) {
    forall k :: 0 <= k < |actions| ==> !actions[k].LookForBlob?
  }

  /** A handler is past its look and the blob is there, or another one is. */
  ghost predicate Crowded(w: World, s: State, digest: string) {
    (SomeonePast(w, s, digest) && Blob(digest) in s.names) || TwoPast(w, s, digest)
  }

  lemma StepStaysUncrowded(w: World, s: State, a: Action, digest: string)
    requires !Crowded(w, s, digest) && !a.LookForBlob?
    ensures !Crowded(w, Apply(w, s, a), digest) && !Replaces(s, Apply(w, s, a), digest)
  {
    var next := Apply(w, s, a);
    NamesStep(w, s, a, digest);
    SameClients(w, s, a);
    forall i | 0 <= i < |next.clients| && PastLook(w, next.clients[i]) == Some(digest)
      ensures PastLook(w, s.clients[i]) == Some(digest)
    {
      ClientStep(w, s, a, i, digest);
    }
    assert SomeonePast(w, next, digest) ==> SomeonePast(w, s, digest);
  }

  lemma {:induction false} StaysUncrowded(w: World, s: State, actions: seq<Action>, digest: string)
    requires !Crowded(w, s, digest) && NoLooks(actions)
    ensures !Crowded(w, After(w, s, actions), digest) && !ReplacedIn(w, s, actions, digest)
    decreases |actions|
  {
    if actions != [] {
      var k := |actions| - 1;
      StaysUncrowded(w, s, actions[..k], digest);
      StepStaysUncrowded(w, After(w, s, actions[..k]), actions[k], digest);
      ReplacedStep(w, s, actions, digest);
    }
  }

  /** Renaming onto a blob that is there replaces it. */
  lemma FinishReplaces(w: World, s: State, i: nat, digest: string)
    requires Inv(w, s) && i < |s.clients| && PastLook(w, s.clients[i]) == Some(digest) && Ready(w, s, s.clients[i])
    requires Blob(digest) in s.names
    ensures ReplacedIn(w, s, Finish(i, |s.clients[i].put.blob|), digest)
  {
    var n := |s.clients[i].put.blob|;
    var run := Finish(i, n);
    var before := After(w, s, [CreateTemp(i, false), WriteTemp(i, n, false)]);
    AfterTwo(w, s, CreateTemp(i, false), WriteTemp(i, n, false));
    assert run[..2] == [CreateTemp(i, false), WriteTemp(i, n, false)];
    FinishStores(w, s, i);
    AfterFinish(w, s, i, n);
    NamesStep(w, s, CreateTemp(i, false), digest);
    NameStays(w, s, CreateTemp(i, false), digest);
    NamesStep(w, Apply(w, s, CreateTemp(i, false)), WriteTemp(i, n, false), digest);
    NameStays(w, Apply(w, s, CreateTemp(i, false)), WriteTemp(i, n, false), digest);
    ReplacedStep(w, s, run, digest);
  }

  lemma NameStays(w: World, s: State, a: Action, digest: string)
    requires a.CreateTemp? || a.WriteTemp?
    ensures Blob(digest) in s.names ==> Blob(digest) in Apply(w, s, a).names
  {
  }

  lemma AfterTwo(w: World, s: State, x: Action, y: Action)
    ensures After(w, s, [x, y]) == Apply(w, Apply(w, s, x), y)
  {
    assert [x, y][..1] == [x] && [x][..0] == [];
    assert After(w, s, [x]) == Apply(w, After(w, s, [x][..0]), x);
  }

  lemma ReplacedMore(w: World, s: State, init: seq<Action>, last: Action, digest: string)
    ensures ReplacedIn(w, s, init + [last], digest) <==>
            ReplacedIn(w, s, init, digest) || Replaces(After(w, s, init), Apply(w, After(w, s, init), last), digest)
  {
    assert (init + [last])[..|init|] == init;
    ReplacedStep(w, s, init + [last], digest);
  }

  lemma NothingReplaces(w: World, s: State, digest: string)
    ensures !ReplacedIn(w, s, [], digest)
  {
  }

  /** What is replaced in a later part of a run is replaced in the run. */
  lemma {:induction false} ReplacedLater(w: World, s: State, a: seq<Action>, b: seq<Action>, digest: string)
    requires ReplacedIn(w, After(w, s, a), b, digest)
    ensures ReplacedIn(w, s, a + b, digest)
    decreases |b|
  {
    if b == [] {
      NothingReplaces(w, After(w, s, a), digest);
    } else {
      var init, last := b[..|b| - 1], b[|b| - 1];
      assert b == init + [last] && a + b == a + init + [last];
      ReplacedMore(w, After(w, s, a), init, last, digest);
      ReplacedMore(w, s, a + init, last, digest);
      AfterConcat(w, s, a, init);
      if ReplacedIn(w, After(w, s, a), init, digest) {
        ReplacedLater(w, s, a, init, digest);
      }
    }
  }

  /** The rest of a request, as a run: it stores, and replaces what is there. */
  lemma Finishes(w: World, s: State, i: nat, digest: string) returns (run: seq<Action>, end: State)
    requires Inv(w, s) && AllReady(w, s) && i < |s.clients| && PastLook(w, s.clients[i]) == Some(digest)
    ensures end == After(w, s, run) && NoLooks(run)
    ensures Inv(w, end) && AllReady(w, end)
    ensures StoresNow(w, s, end, i, s.clients[i].put, s.clients[i].serial)
    ensures Blob(digest) in s.names ==> ReplacedIn(w, s, run, digest)
  {
    var put := s.clients[i].put;
    run := Finish(i, |put.blob|);
    end := After(w, s, run);
    assert Ready(w, s, s.clients[i]);
    FinishStores(w, s, i);
    AfterKeepsInv(w, s, run);
    StoringKeepsReady(w, s, end, i, put, s.clients[i].serial);
    if Blob(digest) in s.names {
      FinishReplaces(w, s, i, digest);
    }
  }

  ghost predicate HoldsBlob(s: State, digest: string) {
    Blob(digest) in s.names && s.names[Blob(digest)] < |s.inodes|
  }

  /** Both are told that they stored, and the blob of the second is there. */
  ghost predicate SecondWon(end: State, clients: seq<Client>, i: nat, j: nat, a: Put, b: Put, digest: string) {
    && i < |clients| && j < |clients| && end.clients == clients[i := PutDone(a, Stored)][j := PutDone(b, Stored)]
    && HoldsBlob(end, digest) && end.inodes[end.names[Blob(digest)]].data == b.blob
  }

  /** Two requests past their look for one digest both store, and the second
  replaces the first. */
  lemma BothFinish(w: World, s: State, i: nat, j: nat, digest: string) returns (run: seq<Action>)
    requires Inv(w, s) && AllReady(w, s) && i < |s.clients| && j < |s.clients| && i != j
    requires PastLook(w, s.clients[i]) == PastLook(w, s.clients[j]) == Some(digest)
    ensures NoLooks(run) && ReplacedIn(w, s, run, digest)
    ensures SecondWon(After(w, s, run), s.clients, i, j, s.clients[i].put, s.clients[j].put, digest)
  {
    var one, first := Finishes(w, s, i, digest);
    assert first.clients[j] == s.clients[j];
    var two, end := Finishes(w, first, j, digest);
    run := TwoRuns(w, s, one, first, two, digest);
    assert NoLooks(run);
  }

  /** Among the requests that have looked, a blob of a digest is never replaced,
  however they go on, if and only if none of them is past its look while the blob
  is there, and no two are. */
  lemma WriteOnceIff(w: World, s: State, digest: string)
    requires Inv(w, s) && AllReady(w, s)
    ensures (forall actions :: NoLooks(actions) ==> !ReplacedIn(w, s, actions, digest)) <==> !Crowded(w, s, digest)
  {
    if !Crowded(w, s, digest) {
      forall actions | NoLooks(actions) ensures !ReplacedIn(w, s, actions, digest) {
        StaysUncrowded(w, s, actions, digest);
      }
    } else if TwoPast(w, s, digest) {
      var i, j :| 0 <= i < |s.clients| && 0 <= j < |s.clients| && i != j
        && PastLook(w, s.clients[i]) == Some(digest) && PastLook(w, s.clients[j]) == Some(digest);
      var run := BothFinish(w, s, i, j, digest);
    } else {
      var i :| 0 <= i < |s.clients| && PastLook(w, s.clients[i]) == Some(digest);
      var run, _ := Finishes(w, s, i, digest);
    }
  }

  // ---------- any two requests can get there ----------

  /** Two idle handlers and a blob that is not there. */
  ghost predicate CanRace(w: World, s: State, i: nat, j: nat, a: Put, b: Put) {
    && i < |s.clients| && j < |s.clients| && i != j && s.clients[i] == Idle && s.clients[j] == Idle
    && Accepted(w, a) && Accepted(w, b) && w.digest(a.key) == w.digest(b.key) && BlobName(w, a.key) !in s.names
    && TempName(w, a, s.serial) !in s.names && TempName(w, b, s.serial + 1) !in s.names
  }

  lemma BothAsk(w: World, s: State, i: nat, j: nat, a: Put, b: Put) returns (run: seq<Action>, end: State)
    requires CanRace(w, s, i, j, a, b)
    ensures end == After(w, s, run)
    ensures end.names == s.names && end.serial == s.serial && end.clients == s.clients[i := PutChecking(a)][j := PutChecking(b)]
  {
    run := [SubmitPut(i, a), SubmitPut(j, b)];
    end := Apply(w, Apply(w, s, SubmitPut(i, a)), SubmitPut(j, b));
    AfterTwo(w, s, SubmitPut(i, a), SubmitPut(j, b));
  }

  lemma BothLook(w: World, s: State, clients: seq<Client>, i: nat, j: nat, a: Put, b: Put) returns (run: seq<Action>, end: State)
    requires i < |clients| && j < |clients| && i != j
    requires s.clients == clients[i := PutChecking(a)][j := PutChecking(b)]
    requires w.digest(a.key) == w.digest(b.key) && BlobName(w, a.key) !in s.names
    ensures end == After(w, s, run)
    ensures end.names == s.names && end.clients == clients[i := PutCreating(a, s.serial)][j := PutCreating(b, s.serial + 1)]
  {
    TwiceUpdated(clients, i, j, PutChecking(a), PutChecking(b), PutCreating(a, s.serial), PutCreating(b, s.serial + 1));
    run := [LookForBlob(i), LookForBlob(j)];
    end := Apply(w, Apply(w, s, LookForBlob(i)), LookForBlob(j));
    AfterTwo(w, s, LookForBlob(i), LookForBlob(j));
  }

  /** Three runs in a row; what the last one replaces the whole replaces. */
  lemma ThreeRuns(w: World, s: State, one: seq<Action>, a: State, two: seq<Action>, b: State, three: seq<Action>, digest: string)
    returns (run: seq<Action>)
    requires a == After(w, s, one) && b == After(w, a, two) && ReplacedIn(w, b, three, digest)
    ensures After(w, s, run) == After(w, b, three) && ReplacedIn(w, s, run, digest)
  {
    var later := TwoRuns(w, a, two, b, three, digest);
    run := TwoRuns(w, s, one, a, later, digest);
  }

  lemma TwoRuns(w: World, s: State, one: seq<Action>, a: State, two: seq<Action>, digest: string) returns (run: seq<Action>)
    requires a == After(w, s, one) && ReplacedIn(w, a, two, digest)
    ensures After(w, s, run) == After(w, a, two) && ReplacedIn(w, s, run, digest) && run == one + two
  {
    run := one + two;
    AfterConcat(w, s, one, two);
    ReplacedLater(w, s, one, two, digest);
  }

  lemma TwiceUpdated<T>(s: seq<T>, i: nat, j: nat, a: T, b: T, c: T, d: T)
    requires i < |s| && j < |s| && i != j
    ensures s[i := a][j := b][i := c][j := d] == s[i := c][j := d]
  {
  }

  /** Handlers that change from a state without a temporary file stay ready. */
  lemma RacersReady(w: World, s: State, end: State, i: nat, j: nat, a: Client, b: Client)
    requires AllReady(w, s) && end.names == s.names && i < |s.clients| && j < |s.clients|
    requires end.clients == s.clients[i := a][j := b] && Ready(w, end, a) && Ready(w, end, b)
    ensures AllReady(w, end)
  {
    forall n | 0 <= n < |end.clients| ensures Ready(w, end, end.clients[n]) {
      assert Ready(w, s, s.clients[n]);
    }
  }

  /** Two handlers that check for one blob that is not there both look, and store. */
  lemma RaceFinishes(w: World, s: State, clients: seq<Client>, i: nat, j: nat, a: Put, b: Put)
    returns (look: seq<Action>, looked: State, rest: seq<Action>)
    requires Inv(w, s) && AllReady(w, s) && i < |clients| && j < |clients| && i != j
    requires s.clients == clients[i := PutChecking(a)][j := PutChecking(b)]
    requires w.digest(a.key) == w.digest(b.key) && BlobName(w, a.key) !in s.names
    requires TempName(w, a, s.serial) !in s.names && TempName(w, b, s.serial + 1) !in s.names
    ensures looked == After(w, s, look) && ReplacedIn(w, looked, rest, w.digest(a.key))
    ensures SecondWon(After(w, looked, rest), clients, i, j, a, b, w.digest(a.key))
  {
    var one, two := PutCreating(a, s.serial), PutCreating(b, s.serial + 1);
    look, looked := BothLook(w, s, clients, i, j, a, b);
    AfterKeepsInv(w, s, look);
    TwiceUpdated(clients, i, j, PutChecking(a), PutChecking(b), one, two);
    RacersReady(w, s, looked, i, j, one, two);
    rest := BothFinish(w, looked, i, j, w.digest(a.key));
    TwiceUpdated(clients, i, j, one, two, PutDone(a, Stored), PutDone(b, Stored));
  }

  lemma RaceFromAsked(w: World, s: State, ask: seq<Action>, asked: State, i: nat, j: nat, a: Put, b: Put) returns (run: seq<Action>)
    requires Inv(w, s) && AllReady(w, s) && i < |s.clients| && j < |s.clients| && i != j
    requires asked == After(w, s, ask) && asked.names == s.names && asked.serial == s.serial
    requires asked.clients == s.clients[i := PutChecking(a)][j := PutChecking(b)]
    requires w.digest(a.key) == w.digest(b.key) && BlobName(w, a.key) !in s.names
    requires TempName(w, a, s.serial) !in s.names && TempName(w, b, s.serial + 1) !in s.names
    ensures ReplacedIn(w, s, run, w.digest(a.key))
    ensures SecondWon(After(w, s, run), s.clients, i, j, a, b, w.digest(a.key))
  {
    AfterKeepsInv(w, s, ask);
    RacersReady(w, s, asked, i, j, PutChecking(a), PutChecking(b));
    var look, looked, rest := RaceFinishes(w, asked, s.clients, i, j, a, b);
    run := ThreeRuns(w, s, ask, asked, look, looked, rest, w.digest(a.key));
  }

  /** Write-once is no property of the interleaved server: wherever two handlers
  are idle and a blob is not there, two requests for it can both be told that
  they stored, and the second blob replaces the first. */
  lemma BothStore(w: World, s: State, i: nat, j: nat, a: Put, b: Put) returns (run: seq<Action>)
    requires Inv(w, s) && AllReady(w, s) && CanRace(w, s, i, j, a, b)
    ensures ReplacedIn(w, s, run, w.digest(a.key))
    ensures SecondWon(After(w, s, run), s.clients, i, j, a, b, w.digest(a.key))
  {
    var ask, asked := BothAsk(w, s, i, j, a, b);
    run := RaceFromAsked(w, s, ask, asked, i, j, a, b);
  }
}
