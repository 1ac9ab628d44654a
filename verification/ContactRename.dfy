/** Renaming a contact: move its directory aside, replace the metadata file, move
the directory to its new name, and undo on failure.

Every file-system call may work, fail, or be the last one before the program
stops; `plan` says which. After a stop further calls do nothing, so the states
in `trace` are exactly those the disk can be left in. File names are compared as
they are: the file system is case-sensitive. */
module ContactRename {
  import opened Wrappers
  import opened Text

  type Files = map<string, string>

  datatype Dir = Profile(name: string) | Staging(nonce: nat)

  type Dirs = map<Dir, Files>

  datatype Fate = Works | Fails(written: nat) | Stops(written: nat)

  // ---------- names ----------

  function Dat(name: string): string {
    name + ".dat"
  }

  /** `with_extension("tmp")` of the metadata path. */
  function Tmp(name: string): string {
    name + ".tmp"
  }

  const OLD_META: string := ".old-contact.dat"

  predicate IsValidName(name: string) {
    var t := Trim(name);
    && t != []
    && !SameIgnoringCase(t, "default") && !SameIgnoringCase(t, "__app__") && !SameIgnoringCase(t, "global")
    && '/' !in t && '\\' !in t
    && t[0] != '.'
  }

  /** The prefix is looked for before trimming. */
  predicate IsPersistentName(name: string) {
    IsValidName(name) && !HasGroupPrefix(name)
  }

  predicate HasGroupPrefix(name: string) {
    |name| >= 6 && SameIgnoringCase(name[..6], "group:")
  }

  lemma {:induction false} TrimStartIdempotent(s: string)
    ensures TrimStart(s) == s || (s != [] && IsSpace(s[0]))
    ensures TrimStart(s) != [] ==> !IsSpace(TrimStart(s)[0])
    decreases |s|
  {
    if s != [] && IsSpace(s[0]) {
      TrimStartIdempotent(s[1..]);
    }
  }

  lemma {:induction false} TrimEndFront(s: string)
    ensures TrimEnd(s) != [] ==> s != [] && TrimEnd(s)[0] == s[0]
    ensures s != [] && !IsSpace(s[0]) ==> TrimEnd(s) != []
    decreases |s|
  {
    if s != [] && IsSpace(s[|s| - 1]) {
      TrimEndFront(s[..|s| - 1]);
    }
  }

  lemma {:induction false} TrimEndAgain(s: string)
    ensures TrimEnd(TrimEnd(s)) == TrimEnd(s)
    decreases |s|
  {
    if s != [] && IsSpace(s[|s| - 1]) {
      TrimEndAgain(s[..|s| - 1]);
    }
  }

  lemma TrimAgain(s: string)
    ensures Trim(Trim(s)) == Trim(s)
  {
    var start := TrimStart(s);
    TrimStartIdempotent(s);
    TrimEndFront(start);
    TrimStartIdempotent(Trim(s));
    TrimEndAgain(start);
  }

  lemma {:induction false} TrimStartKeeps(s: string, c: char)
    requires c in s && !IsSpace(c)
    ensures c in TrimStart(s)
    decreases |s|
  {
    if IsSpace(s[0]) {
      TrimStartKeeps(s[1..], c);
    }
  }

  lemma {:induction false} TrimEndKeeps(s: string, c: char)
    requires c in s && !IsSpace(c)
    ensures c in TrimEnd(s)
    decreases |s|
  {
    if IsSpace(s[|s| - 1]) {
      TrimEndKeeps(s[..|s| - 1], c);
    }
  }

  lemma TrimKeeps(s: string, c: char)
    requires c in s && !IsSpace(c)
    ensures c in Trim(s)
  {
    TrimStartKeeps(s, c);
    TrimEndKeeps(TrimStart(s), c);
  }

  /** The files of a valid name are in the directory itself, and it is none of the
  names the program keeps for itself. */
  lemma ValidNamesStayInside(name: string)
    requires IsValidName(name)
    ensures forall c :: c in Dat(name) || c in Tmp(name) ==> c != '/' && c != '\\'
    ensures forall r :: r in ["default", "__app__", "global"] ==> !SameIgnoringCase(Trim(name), r)
    ensures Trim(name) != [] && Trim(name)[0] != '.'
  {
    if '/' in name {
      TrimKeeps(name, '/');
    }
    if '\\' in name {
      TrimKeeps(name, '\\');
    }
  }

  lemma DatInjective(a: string, b: string)
    ensures Dat(a) == Dat(b) <==> a == b
  {
    assert Dat(a)[..|a|] == a && Dat(b)[..|b|] == b;
    assert Dat(a) == Dat(b) ==> |a| == |b|;
  }

  lemma HiddenNameInvalid()
    ensures !IsValidName(".old-contact")
  {
    var name := ".old-contact";
    assert name[0] == '.';
    assert TrimStart(name) == name;
    TrimEndFront(name);
  }

  /** The names a rename works with are four different ones. */
  lemma SpecialNamesDiffer(old_name: string, new_name: string)
    requires IsValidName(old_name) && IsValidName(new_name) && old_name != new_name
    ensures Dat(old_name) != Dat(new_name) && Dat(old_name) != Tmp(new_name) && Dat(new_name) != Tmp(new_name)
    ensures Dat(old_name) != OLD_META && Dat(new_name) != OLD_META && Tmp(new_name) != OLD_META
  {
    HiddenNameInvalid();
    assert OLD_META == Dat(".old-contact");
    DatInjective(old_name, ".old-contact");
    DatInjective(new_name, ".old-contact");
    DatInjective(old_name, new_name);
    assert Dat(old_name)[|Dat(old_name)| - 1] == 't' && Dat(new_name)[|Dat(new_name)| - 1] == 't';
    assert Tmp(new_name)[|Tmp(new_name)| - 1] == 'p' && OLD_META[|OLD_META| - 1] == 't';
  }

  // ---------- metadata ----------

  const MIN_HOPS: nat := 1
  const MAX_HOPS: nat := 4
  const DEFAULT_HOPS: nat := 2
  const MIN_QUANTITY: nat := 1
  const MAX_QUANTITY: nat := 5
  const DEFAULT_QUANTITY: nat := 3

  /** `others` stands for the fields a rename never looks at. */
  datatype Meta = Meta(name: string, hops: nat, quantity: nat, others: string)

  /** The JSON reader and writer. */
  datatype Json = Json(parse: string -> Option<Meta>, show: Meta -> Option<string>)

  ghost predicate RoundTrips(json: Json) {
    forall m :: json.show(m).Some? ==> json.parse(json.show(m).value) == Some(m)
  }

  /** Loading replaces tunnel settings that are out of range by the defaults. */
  function Normalized(m: Meta): Meta {
    m.(hops := if MIN_HOPS <= m.hops <= MAX_HOPS then m.hops else DEFAULT_HOPS,
       quantity := if MIN_QUANTITY <= m.quantity <= MAX_QUANTITY then m.quantity else DEFAULT_QUANTITY)
  }

  function LoadMeta(json: Json, dirs: Dirs, name: string): Option<Meta> {
    if Profile(name) !in dirs || Dat(name) !in dirs[Profile(name)] then None
    else
      match json.parse(dirs[Profile(name)][Dat(name)])
      case None => None
      case Some(m) => Some(Normalized(m))
  }

  // ---------- where the contact is ----------

  /** A rename that has passed its checks: the disk it started on and the text of
  the new metadata. */
  datatype Job = Job(start: Dirs, old_name: string, new_name: string, nonce: nat, text: string) {
    ghost predicate Valid() {
      && IsValidName(old_name) && IsValidName(new_name) && old_name != new_name
      && Profile(old_name) in start && Dat(old_name) in start[Profile(old_name)]
      && Staging(nonce) !in start
    }

    function Before(): Files
      requires Profile(old_name) in start
    {
      start[Profile(old_name)]
    }

    function OldText(): string
      requires Profile(old_name) in start && Dat(old_name) in start[Profile(old_name)]
    {
      Before()[Dat(old_name)]
    }

    /** The names a rename may touch inside the directory. */
    function Special(): set<string> {
      {Dat(old_name), Dat(new_name), Tmp(new_name), OLD_META}
    }

    /** Every file but the special ones is there unchanged, and no other. */
    ghost predicate SameOthers(files: Files)
      requires Valid()
    {
      files - Special() == Before() - Special()
    }

    ghost predicate HasOldText(files: Files)
      requires Valid()
    {
      || (Dat(old_name) in files && files[Dat(old_name)] == OldText())
      || (OLD_META in files && files[OLD_META] == OldText())
    }

    ghost predicate HasNewText(files: Files) {
      Dat(new_name) in files && files[Dat(new_name)] == text
    }

    /** Everything but the contact's own three places is as it was. */
    ghost predicate RestUntouched(dirs: Dirs) {
      var own := {Profile(old_name), Profile(new_name), Staging(nonce)};
      dirs - own == start - own
    }

    /** No directory has the new name, or an empty one. */
    ghost predicate NewPlaceFree() {
      Profile(new_name) in start ==> start[Profile(new_name)] == map[]
    }

    ghost predicate NewUntouched(dirs: Dirs) {
      && (Profile(new_name) in dirs <==> Profile(new_name) in start)
      && (Profile(new_name) in start ==> dirs[Profile(new_name)] == start[Profile(new_name)])
    }

    ghost predicate AtOld(dirs: Dirs)
      requires Valid()
    {
      && RestUntouched(dirs) && NewUntouched(dirs) && Staging(nonce) !in dirs
      && Profile(old_name) in dirs
      && SameOthers(dirs[Profile(old_name)]) && HasOldText(dirs[Profile(old_name)])
    }

    ghost predicate AtStaging(dirs: Dirs)
      requires Valid()
    {
      && RestUntouched(dirs) && NewUntouched(dirs) && Profile(old_name) !in dirs
      && Staging(nonce) in dirs
      && SameOthers(dirs[Staging(nonce)]) && HasOldText(dirs[Staging(nonce)])
    }

    ghost predicate AtNew(dirs: Dirs)
      requires Valid()
    {
      && RestUntouched(dirs) && Profile(old_name) !in dirs && Staging(nonce) !in dirs
      && Profile(new_name) in dirs
      && SameOthers(dirs[Profile(new_name)]) && HasNewText(dirs[Profile(new_name)])
    }

    /** The contact is in exactly one of its three places, whole, with its
    metadata text. */
    ghost predicate Safe(dirs: Dirs)
      requires Valid()
    {
      AtOld(dirs) || AtStaging(dirs) || AtNew(dirs)
    }

    /** In the staging directory, old metadata under its hidden name. */
    ghost predicate Staged(dirs: Dirs)
      requires Valid()
    {
      && AtStaging(dirs)
      && Dat(old_name) !in dirs[Staging(nonce)]
      && OLD_META in dirs[Staging(nonce)] && dirs[Staging(nonce)][OLD_META] == OldText()
    }

    /** No more strays than one, when there were none to begin with. */
    ghost predicate FewStrays(files: Files)
      requires Valid()
    {
      Dat(new_name) !in Before() && Tmp(new_name) !in Before() ==> !(Dat(new_name) in files && Tmp(new_name) in files)
    }

    /** Undone: the old directory has its old metadata and all other files again,
    and at most one stray file under the new name. */
    ghost predicate Restored(dirs: Dirs)
      requires Valid()
    {
      && AtOld(dirs)
      && var files := dirs[Profile(old_name)];
      && Dat(old_name) in files && files[Dat(old_name)] == OldText()
      && (OLD_META in files ==> OLD_META in Before())
      && FewStrays(files)
    }

    /** None of the names a rename adds to the directory. */
    ghost predicate NoStrays(files: Files) {
      Dat(new_name) !in files && Tmp(new_name) !in files
    }

    /** Undone without a trace. */
    lemma AsItWas(dirs: Dirs)
      requires Valid() && Restored(dirs) && NoStrays(dirs[Profile(old_name)])
      requires NoStrays(Before()) && OLD_META !in Before()
      ensures dirs == start
    {
      var files := dirs[Profile(old_name)];
      assert files == Before() by {
        assert SameOthers(files);
        forall f | f !in Special() ensures f in files <==> f in Before()
                                  ensures f in files ==> files[f] == Before()[f]
        {
          assert f in files <==> f in files - Special();
          assert f in Before() <==> f in Before() - Special();
        }
      }
      BackInPlace(dirs);
    }

    lemma BackInPlace(dirs: Dirs)
      requires Valid() && AtOld(dirs) && dirs[Profile(old_name)] == Before()
      ensures dirs == start
    {
      var own := {Profile(old_name), Profile(new_name), Staging(nonce)};
      forall d | d !in own ensures d in dirs <==> d in start
                           ensures d in dirs ==> dirs[d] == start[d]
      {
        assert d in dirs <==> d in dirs - own;
        assert d in start <==> d in start - own;
      }
    }

    ghost predicate Finished(dirs: Dirs)
      requires Valid()
    {
      && AtNew(dirs)
      && var files := dirs[Profile(new_name)];
      && Dat(old_name) !in files && Tmp(new_name) !in files
      && (OLD_META in files ==> files[OLD_META] == OldText())
    }
  }

  // ---------- the disk ----------

  class Disk {
    const plan: nat -> Fate
    var dirs: Dirs
    var turn: nat
    var stopped: bool
    ghost var trace: seq<Dirs>

    constructor (plan: nat -> Fate, dirs: Dirs)
      ensures this.plan == plan && this.dirs == dirs && turn == 0 && !stopped && trace == [dirs]
    {
      this.plan, this.dirs, turn, stopped, trace := plan, dirs, 0, false, [dirs];
    }

    /** From here on no call fails. */
    ghost predicate Reliable()
      reads this`stopped, this`turn
    {
      !stopped && forall k: nat :: k >= turn ==> plan(k) == Works
    }

    /** The calls numbered from `from`, `n` of them, are planned to work. */
    ghost predicate Planned(from: nat, n: nat) {
      forall k: nat :: from <= k < from + n ==> plan(k) == Works
    }

    /** All calls after number `k` are. */
    ghost predicate PlannedAfter(k: nat) {
      forall m: nat :: m > k ==> plan(m) == Works
    }

    /** The first of these calls that is planned to fail, if any does, does not
    stop the program, and every call after it works. */
    ghost predicate FailsOnce(from: nat, n: nat) {
      forall k: nat :: from <= k < from + n && plan(k) != Works && Planned(from, k - from) ==>
        plan(k).Fails? && PlannedAfter(k)
    }

    /** Since call `from` all worked, and there were `n`. */
    ghost predicate AllWorked(from: nat, n: nat)
      reads this`stopped, this`turn
    {
      !stopped && turn == from + n && Planned(from, n)
    }

    /** The last call was the first to fail since call `from`, and one of `n`. */
    ghost predicate JustFailed(from: nat, n: nat)
      reads this`stopped, this`turn
    {
      && from < turn <= from + n && Planned(from, turn - 1 - from)
      && plan(turn - 1) != Works && stopped == plan(turn - 1).Stops?
    }

    /** How it went since call `from`. */
    ghost predicate Sofar(from: nat, n: nat, ok: bool)
      reads this`stopped, this`turn
    {
      if ok then AllWorked(from, n) else JustFailed(from, n)
    }

    lemma OneMore(from: nat, n: nat, ok: bool)
      requires Planned(from, n) && TurnedOnce(from + n, false, ok)
      ensures Sofar(from, n + 1, ok)
    {
    }

    lemma Chained(from: nat, a: nat, b: nat, ok: bool)
      requires Planned(from, a) && Sofar(from + a, b, ok)
      ensures Sofar(from, a + b, ok)
    {
    }

    lemma ReliableAfterFailure(from: nat, n: nat)
      requires FailsOnce(from, n) && JustFailed(from, n)
      ensures Reliable()
    {
      assert plan(turn - 1).Fails?;
    }

    /** The next call is planned to work. */
    ghost predicate Willing()
      reads this`stopped, this`turn
    {
      !stopped && plan(turn) == Works
    }

    /** One call was made, number `from`, and its outcome was as planned. */
    ghost predicate TurnedOnce(from: nat, wasStopped: bool, ok: bool)
      reads this`stopped, this`turn
    {
      && ok == (!wasStopped && plan(from) == Works)
      && stopped == (wasStopped || plan(from).Stops?)
      && turn == from + if wasStopped then 0 else 1
    }

    /** One call was made, as planned, unless the program had stopped before. */
    twostate predicate Called()
      reads this`stopped, this`turn
    {
      && stopped == (old(stopped) || plan(old(turn)).Stops?)
      && turn == old(turn) + if old(stopped) then 0 else 1
    }

    /** The fate of the next call. */
    method Next() returns (fate: Fate)
      modifies this`turn, this`stopped
      ensures Called() && fate == if old(stopped) then Fails(0) else plan(old(turn))
    {
      if stopped {
        return Fails(0);
      }
      fate := plan(turn);
      turn := turn + 1;
      stopped := fate.Stops?;
    }

    /** A call without effect on names and contents: modes, flushes. */
    method Chmod() returns (ok: bool)
      modifies this`turn, this`stopped
      ensures Called() && ok == old(Willing())
    {
      var fate := Next();
      ok := fate.Works?;
    }

    /** Onto a directory that exists it works only when that one is empty. */
    method RenameDir(from: Dir, to: Dir) returns (ok: bool)
      requires from != to
      modifies this
      ensures Called() && trace == old(trace) + [dirs]
      ensures ok <==> old(Willing()) && from in old(dirs) && (to in old(dirs) ==> old(dirs)[to] == map[])
      ensures dirs == if ok then (old(dirs) - {from})[to := old(dirs)[from]] else old(dirs)
    {
      var fate := Next();
      ok := fate.Works? && from in dirs && (to in dirs ==> dirs[to] == map[]);
      if ok {
        dirs := (dirs - {from})[to := dirs[from]];
      }
      trace := trace + [dirs];
    }

    method RenameFile(dir: Dir, from: string, to: string) returns (ok: bool)
      requires from != to
      modifies this
      ensures Called() && trace == old(trace) + [dirs]
      ensures ok <==> old(Willing()) && dir in old(dirs) && from in old(dirs)[dir]
      ensures dirs == if ok then old(dirs)[dir := (old(dirs)[dir] - {from})[to := old(dirs)[dir][from]]] else old(dirs)
    {
      var fate := Next();
      ok := fate.Works? && dir in dirs && from in dirs[dir];
      if ok {
        dirs := dirs[dir := (dirs[dir] - {from})[to := dirs[dir][from]]];
      }
      trace := trace + [dirs];
    }

    method RemoveFile(dir: Dir, name: string) returns (ok: bool)
      modifies this
      ensures Called() && trace == old(trace) + [dirs]
      ensures ok <==> old(Willing()) && dir in old(dirs) && name in old(dirs)[dir]
      ensures dirs == if ok then old(dirs)[dir := old(dirs)[dir] - {name}] else old(dirs)
    {
      var fate := Next();
      ok := fate.Works? && dir in dirs && name in dirs[dir];
      if ok {
        dirs := dirs[dir := dirs[dir] - {name}];
      }
      trace := trace + [dirs];
    }

    /** Create or truncate, then write; a failed write may leave a part. */
    method WriteFile(dir: Dir, name: string, text: string) returns (ok: bool)
      modifies this
      ensures Called() && trace == old(trace) + [dirs]
      ensures dirs == old(dirs) ||
              (dir in old(dirs) && dir in dirs && name in dirs[dir] && dirs == old(dirs)[dir := old(dirs)[dir][name := dirs[dir][name]]])
      ensures ok <==> old(Willing()) && dir in old(dirs)
      ensures ok ==> dirs == old(dirs)[dir := old(dirs)[dir][name := text]]
    {
      var fate := Next();
      ok := fate.Works? && dir in dirs;
      if ok {
        dirs := dirs[dir := dirs[dir][name := text]];
      } else if !fate.Works? && dir in dirs && fate.written > 0 {
        var part := text[..if fate.written - 1 <= |text| then fate.written - 1 else |text|];
        dirs := dirs[dir := dirs[dir][name := part]];
      }
      trace := trace + [dirs];
    }
  }

  /** Every state the disk has been in is safe. */
  ghost predicate AllSafe(job: Job, trace: seq<Dirs>)
    requires job.Valid()
  {
    forall i :: 0 <= i < |trace| ==> job.Safe(trace[i])
  }

  // ---------- the steps of a rename ----------

  /** A change among the special files alone leaves the contact staged. */
  lemma TouchesOnlySpecial(job: Job, before: Dirs, after: Dirs, files: Files)
    requires job.Valid() && job.Staged(before)
    requires after == before[Staging(job.nonce) := files]
    requires files - job.Special() == before[Staging(job.nonce)] - job.Special()
    requires Dat(job.old_name) !in files
    requires OLD_META in files && files[OLD_META] == job.OldText()
    ensures job.Staged(after)
  {
    var own := {Profile(job.old_name), Profile(job.new_name), Staging(job.nonce)};
    assert after - own == before - own;
  }

  /** `atomic_write_text` of the new metadata, in the staging directory: five calls,
  the parent directory first. */
  method WriteNewMeta(disk: Disk, job: Job) returns (ok: bool)
    requires job.Valid() && job.Staged(disk.dirs) && AllSafe(job, disk.trace) && !disk.stopped
    requires var files := disk.dirs[Staging(job.nonce)];
             && (Dat(job.new_name) in files <==> Dat(job.new_name) in job.Before())
             && (Tmp(job.new_name) in files <==> Tmp(job.new_name) in job.Before())
    modifies disk
    ensures job.Staged(disk.dirs) && AllSafe(job, disk.trace)
    ensures job.FewStrays(disk.dirs[Staging(job.nonce)])
    ensures ok ==> job.HasNewText(disk.dirs[Staging(job.nonce)]) && Tmp(job.new_name) !in disk.dirs[Staging(job.nonce)]
    ensures !disk.Planned(old(disk.turn), 1) ==> disk.dirs == old(disk.dirs)
    ensures disk.Sofar(old(disk.turn), 5, ok)
  {
    ghost var from := disk.turn;
    ok := WriteTmp(disk, job);
    if !ok {
      return;
    }
    ok := PublishTmp(disk, job);
    disk.Chained(from, 2, 3, ok);
  }

  /** The parent directory, then create, write and flush. */
  method WriteTmp(disk: Disk, job: Job) returns (ok: bool)
    requires job.Valid() && job.Staged(disk.dirs) && AllSafe(job, disk.trace) && !disk.stopped
    requires Dat(job.new_name) in disk.dirs[Staging(job.nonce)] <==> Dat(job.new_name) in job.Before()
    modifies disk
    ensures job.Staged(disk.dirs) && AllSafe(job, disk.trace)
    ensures job.FewStrays(disk.dirs[Staging(job.nonce)])
    ensures Dat(job.new_name) in disk.dirs[Staging(job.nonce)] <==> Dat(job.new_name) in job.Before()
    ensures ok ==> Tmp(job.new_name) in disk.dirs[Staging(job.nonce)] && disk.dirs[Staging(job.nonce)][Tmp(job.new_name)] == job.text
    ensures !disk.Planned(old(disk.turn), 1) ==> disk.dirs == old(disk.dirs)
    ensures disk.Sofar(old(disk.turn), 2, ok)
  {
    ghost var from := disk.turn;
    ok := disk.Chmod();
    disk.OneMore(from, 0, ok);
    if ok {
      ok := FillTmp(disk, job);
      disk.OneMore(from, 1, ok);
    } else {
      SpecialNamesDiffer(job.old_name, job.new_name);
    }
  }

  method FillTmp(disk: Disk, job: Job) returns (ok: bool)
    requires job.Valid() && job.Staged(disk.dirs) && AllSafe(job, disk.trace)
    requires Dat(job.new_name) in disk.dirs[Staging(job.nonce)] <==> Dat(job.new_name) in job.Before()
    modifies disk
    ensures job.Staged(disk.dirs) && AllSafe(job, disk.trace)
    ensures job.FewStrays(disk.dirs[Staging(job.nonce)])
    ensures Dat(job.new_name) in disk.dirs[Staging(job.nonce)] <==> Dat(job.new_name) in job.Before()
    ensures ok ==> Tmp(job.new_name) in disk.dirs[Staging(job.nonce)] && disk.dirs[Staging(job.nonce)][Tmp(job.new_name)] == job.text
    ensures disk.TurnedOnce(old(disk.turn), old(disk.stopped), ok)
  {
    SpecialNamesDiffer(job.old_name, job.new_name);
    ghost var before := disk.dirs;
    ok := disk.WriteFile(Staging(job.nonce), Tmp(job.new_name), job.text);
    if disk.dirs != before {
      TouchesOnlySpecial(job, before, disk.dirs, disk.dirs[Staging(job.nonce)]);
    }
  }

  /** Modes, the atomic rename, modes. */
  method PublishTmp(disk: Disk, job: Job) returns (ok: bool)
    requires job.Valid() && job.Staged(disk.dirs) && AllSafe(job, disk.trace) && !disk.stopped
    requires job.FewStrays(disk.dirs[Staging(job.nonce)])
    requires Tmp(job.new_name) in disk.dirs[Staging(job.nonce)] && disk.dirs[Staging(job.nonce)][Tmp(job.new_name)] == job.text
    modifies disk
    ensures job.Staged(disk.dirs) && AllSafe(job, disk.trace)
    ensures job.FewStrays(disk.dirs[Staging(job.nonce)])
    ensures ok ==> job.HasNewText(disk.dirs[Staging(job.nonce)]) && Tmp(job.new_name) !in disk.dirs[Staging(job.nonce)]
    ensures disk.Sofar(old(disk.turn), 3, ok)
  {
    ghost var from := disk.turn;
    ok := disk.Chmod();
    disk.OneMore(from, 0, ok);
    if !ok {
      return;
    }
    ok := PutInPlace(disk, job);
    disk.OneMore(from, 1, ok);
    if !ok {
      return;
    }
    ok := disk.Chmod();
    disk.OneMore(from, 2, ok);
  }

  method PutInPlace(disk: Disk, job: Job) returns (ok: bool)
    requires job.Valid() && job.Staged(disk.dirs) && AllSafe(job, disk.trace)
    requires job.FewStrays(disk.dirs[Staging(job.nonce)])
    requires Tmp(job.new_name) in disk.dirs[Staging(job.nonce)] && disk.dirs[Staging(job.nonce)][Tmp(job.new_name)] == job.text
    modifies disk
    ensures job.Staged(disk.dirs) && AllSafe(job, disk.trace)
    ensures job.FewStrays(disk.dirs[Staging(job.nonce)])
    ensures ok ==> job.HasNewText(disk.dirs[Staging(job.nonce)]) && Tmp(job.new_name) !in disk.dirs[Staging(job.nonce)]
    ensures disk.TurnedOnce(old(disk.turn), old(disk.stopped), ok)
  {
    SpecialNamesDiffer(job.old_name, job.new_name);
    ghost var before := disk.dirs;
    ok := disk.RenameFile(Staging(job.nonce), Tmp(job.new_name), Dat(job.new_name));
    if ok {
      TouchesOnlySpecial(job, before, disk.dirs, disk.dirs[Staging(job.nonce)]);
    }
  }

  /** Put the metadata back under its name. */
  method UnhideMeta(disk: Disk, job: Job) returns (ok: bool)
    requires job.Valid() && job.Staged(disk.dirs) && AllSafe(job, disk.trace)
    requires job.FewStrays(disk.dirs[Staging(job.nonce)])
    modifies disk
    ensures job.AtStaging(disk.dirs) && AllSafe(job, disk.trace)
    ensures job.FewStrays(disk.dirs[Staging(job.nonce)])
    ensures ok ==> var files := disk.dirs[Staging(job.nonce)];
            OLD_META !in files && Dat(job.old_name) in files && files[Dat(job.old_name)] == job.OldText()
    ensures job.NoStrays(old(disk.dirs)[Staging(job.nonce)]) ==> job.NoStrays(disk.dirs[Staging(job.nonce)])
    ensures disk.TurnedOnce(old(disk.turn), old(disk.stopped), ok)
  {
    SpecialNamesDiffer(job.old_name, job.new_name);
    ghost var before := disk.dirs;
    ok := disk.RenameFile(Staging(job.nonce), OLD_META, Dat(job.old_name));
    if ok {
      var own := {Profile(job.old_name), Profile(job.new_name), Staging(job.nonce)};
      assert disk.dirs - own == before - own;
      assert job.SameOthers(disk.dirs[Staging(job.nonce)]);
    }
  }

  method MoveBack(disk: Disk, job: Job) returns (ok: bool)
    requires job.Valid() && job.AtStaging(disk.dirs) && AllSafe(job, disk.trace)
    modifies disk
    ensures AllSafe(job, disk.trace)
    ensures ok ==> job.AtOld(disk.dirs) && disk.dirs[Profile(job.old_name)] == old(disk.dirs)[Staging(job.nonce)]
    ensures disk.TurnedOnce(old(disk.turn), old(disk.stopped), ok)
  {
    ghost var before := disk.dirs;
    ok := disk.RenameDir(Staging(job.nonce), Profile(job.old_name));
    if ok {
      var own := {Profile(job.old_name), Profile(job.new_name), Staging(job.nonce)};
      assert disk.dirs - own == before - own;
    }
  }

  /** The undo after a failure: perhaps drop the new metadata, then rename back. */
  method RollBack(disk: Disk, job: Job, dropNew: bool)
    requires job.Valid() && job.Staged(disk.dirs) && AllSafe(job, disk.trace)
    requires job.FewStrays(disk.dirs[Staging(job.nonce)])
    modifies disk
    ensures AllSafe(job, disk.trace)
    ensures old(disk.Reliable()) ==> job.Restored(disk.dirs)
    ensures old(disk.Reliable()) && Tmp(job.new_name) !in old(disk.dirs)[Staging(job.nonce)]
            && (dropNew || Dat(job.new_name) !in old(disk.dirs)[Staging(job.nonce)]) ==>
              job.NoStrays(disk.dirs[Profile(job.old_name)])
  {
    SpecialNamesDiffer(job.old_name, job.new_name);
    if dropNew {
      ghost var before := disk.dirs;
      var dropped := disk.RemoveFile(Staging(job.nonce), Dat(job.new_name));
      if dropped {
        TouchesOnlySpecial(job, before, disk.dirs, disk.dirs[Staging(job.nonce)]);
      }
    }
    var unhidden := UnhideMeta(disk, job);
    var moved := MoveBack(disk, job);
  }

  lemma MovedAside(job: Job, dirs: Dirs)
    requires job.Valid() && dirs == (job.start - {Profile(job.old_name)})[Staging(job.nonce) := job.Before()]
    ensures job.AtStaging(dirs)
  {
    var own := {Profile(job.old_name), Profile(job.new_name), Staging(job.nonce)};
    assert dirs - own == job.start - own;
  }

  lemma Hidden(job: Job, dirs: Dirs)
    requires job.Valid()
    requires dirs == (job.start - {Profile(job.old_name)})
                       [Staging(job.nonce) := (job.Before() - {Dat(job.old_name)})[OLD_META := job.OldText()]]
    ensures job.Staged(dirs)
    ensures var files := dirs[Staging(job.nonce)];
            && (Dat(job.new_name) in files <==> Dat(job.new_name) in job.Before())
            && (Tmp(job.new_name) in files <==> Tmp(job.new_name) in job.Before())
  {
    SpecialNamesDiffer(job.old_name, job.new_name);
    var own := {Profile(job.old_name), Profile(job.new_name), Staging(job.nonce)};
    assert dirs - own == job.start - own;
    assert job.SameOthers(dirs[Staging(job.nonce)]);
  }

  /** Move aside and hide the old metadata, or undo. */
  method Stage(disk: Disk, job: Job) returns (ok: bool)
    requires job.Valid() && disk.dirs == job.start && AllSafe(job, disk.trace) && !disk.stopped
    modifies disk
    ensures AllSafe(job, disk.trace)
    ensures ok ==> job.Staged(disk.dirs)
    ensures ok ==> var files := disk.dirs[Staging(job.nonce)];
            && (Dat(job.new_name) in files <==> Dat(job.new_name) in job.Before())
            && (Tmp(job.new_name) in files <==> Tmp(job.new_name) in job.Before())
    ensures ok <==> disk.Planned(old(disk.turn), 2)
    ensures ok ==> disk.AllWorked(old(disk.turn), 2)
    ensures !ok && disk.FailsOnce(old(disk.turn), 2) ==> disk.dirs == job.start
  {
    ghost var from := disk.turn;
    ok := MoveAside(disk, job);
    disk.OneMore(from, 0, ok);
    if !ok {
      return;
    }
    ok := HideMeta(disk, job);
    disk.OneMore(from, 1, ok);
    if !ok {
      if disk.FailsOnce(from, 2) {
        disk.ReliableAfterFailure(from, 2);
      }
      var back := MoveBack(disk, job);
      if back {
        job.BackInPlace(disk.dirs);
      }
    }
  }

  method MoveAside(disk: Disk, job: Job) returns (ok: bool)
    requires job.Valid() && disk.dirs == job.start && AllSafe(job, disk.trace)
    modifies disk
    ensures AllSafe(job, disk.trace)
    ensures disk.dirs == if ok then (job.start - {Profile(job.old_name)})[Staging(job.nonce) := job.Before()] else job.start
    ensures disk.TurnedOnce(old(disk.turn), old(disk.stopped), ok)
  {
    assert job.AtOld(disk.dirs);
    ok := disk.RenameDir(Profile(job.old_name), Staging(job.nonce));
    if ok {
      MovedAside(job, disk.dirs);
    }
  }

  method HideMeta(disk: Disk, job: Job) returns (ok: bool)
    requires job.Valid() && AllSafe(job, disk.trace)
    requires disk.dirs == (job.start - {Profile(job.old_name)})[Staging(job.nonce) := job.Before()]
    modifies disk
    ensures AllSafe(job, disk.trace) && job.AtStaging(disk.dirs)
    ensures !ok ==> disk.dirs == old(disk.dirs)
    ensures ok ==> job.Staged(disk.dirs)
    ensures ok ==> var files := disk.dirs[Staging(job.nonce)];
            && (Dat(job.new_name) in files <==> Dat(job.new_name) in job.Before())
            && (Tmp(job.new_name) in files <==> Tmp(job.new_name) in job.Before())
    ensures disk.TurnedOnce(old(disk.turn), old(disk.stopped), ok)
  {
    SpecialNamesDiffer(job.old_name, job.new_name);
    MovedAside(job, disk.dirs);
    ok := disk.RenameFile(Staging(job.nonce), Dat(job.old_name), OLD_META);
    if ok {
      Hidden(job, disk.dirs);
    }
  }

  /** The last directory rename, and the hidden file dropped; or undo. */
  method MoveToNewName(disk: Disk, job: Job) returns (ok: bool)
    requires job.Valid() && job.Staged(disk.dirs) && AllSafe(job, disk.trace) && !disk.stopped
    requires job.FewStrays(disk.dirs[Staging(job.nonce)])
    requires job.HasNewText(disk.dirs[Staging(job.nonce)]) && Tmp(job.new_name) !in disk.dirs[Staging(job.nonce)]
    modifies disk
    ensures AllSafe(job, disk.trace)
    ensures ok <==> disk.plan(old(disk.turn)) == Works && job.NewPlaceFree()
    ensures ok ==> job.Finished(disk.dirs)
    ensures disk.Planned(old(disk.turn), 2) && job.NewPlaceFree() ==> OLD_META !in disk.dirs[Profile(job.new_name)]
    ensures !ok && !disk.plan(old(disk.turn)).Stops? && disk.PlannedAfter(old(disk.turn)) ==>
              job.Restored(disk.dirs) && job.NoStrays(disk.dirs[Profile(job.old_name)])
  {
    SpecialNamesDiffer(job.old_name, job.new_name);
    var own := {Profile(job.old_name), Profile(job.new_name), Staging(job.nonce)};
    ghost var staged := disk.dirs;
    ok := disk.RenameDir(Staging(job.nonce), Profile(job.new_name));
    if !ok {
      RollBack(disk, job, true);
      return;
    }
    assert disk.dirs - own == staged - own;
    assert job.Finished(disk.dirs);
    ghost var moved := disk.dirs;
    var dropped := disk.RemoveFile(Profile(job.new_name), OLD_META);
    if dropped {
      assert disk.dirs - own == moved - own;
      assert job.SameOthers(disk.dirs[Profile(job.new_name)]);
      assert job.Finished(disk.dirs);
    }
  }

  // ---------- the whole rename ----------

  datatype RenameError = InvalidName | NameTaken | Missing | StagingTaken | Unreadable | Unprintable | CallFailed

  /** An existing contact other than this one has the new name, whatever the case. */
  predicate TakenByOther(dirs: Dirs, old_name: string, new_name: string) {
    exists d :: d in dirs && d.Profile? && SameIgnoringCase(d.name, new_name) && !SameIgnoringCase(d.name, old_name)
  }

  predicate NamesAllowed(dirs: Dirs, old_name: string, raw: string) {
    && IsPersistentName(old_name) && IsPersistentName(raw)
    && !TakenByOther(dirs, old_name, Trim(raw))
    && (Profile(Trim(raw)) in dirs ==> SameIgnoringCase(old_name, Trim(raw)))
  }

  /** The job a call amounts to once its checks have passed. */
  function JobOf(json: Json, dirs: Dirs, old_name: string, raw: string, nonce: nat): Job {
    var meta := LoadMeta(json, dirs, old_name);
    var text := if meta.None? then None else json.show(meta.value.(name := Trim(raw)));
    Job(dirs, old_name, Trim(raw), nonce, text.GetOr(""))
  }

  /** The new metadata can be written as text. */
  predicate Printable(json: Json, dirs: Dirs, old_name: string, raw: string) {
    var meta := LoadMeta(json, dirs, old_name);
    meta.Some? && json.show(meta.value.(name := Trim(raw))).Some?
  }

  /** No two contacts whose names differ in case alone. */
  ghost predicate NoTwinContacts(dirs: Dirs) {
    forall d, e :: d in dirs && e in dirs && d.Profile? && e.Profile? && d != e ==> !SameIgnoringCase(d.name, e.name)
  }

  /** Among such contacts the name is taken exactly when another contact has it. */
  lemma TakenIffOther(dirs: Dirs, old_name: string, new_name: string)
    requires NoTwinContacts(dirs) && Profile(old_name) in dirs
    ensures TakenByOther(dirs, old_name, new_name) <==>
            exists d :: d in dirs && d.Profile? && d.name != old_name && SameIgnoringCase(d.name, new_name)
  {
    forall d | d in dirs && d.Profile? && d.name != old_name ensures !SameIgnoringCase(d.name, old_name) {
      assert d != Profile(old_name);
    }
  }

  /** When the checks pass. */
  predicate Admissible(json: Json, dirs: Dirs, old_name: string, raw: string, nonce: nat) {
    && NamesAllowed(dirs, old_name, raw) && old_name != Trim(raw)
    && LoadMeta(json, dirs, old_name).Some?
    && Staging(nonce) !in dirs
  }

  lemma TrimmedNameValid(raw: string)
    requires IsValidName(raw)
    ensures IsValidName(Trim(raw))
  {
    TrimAgain(raw);
  }

  /** The name a rename gives is one that contacts may have, and that a later rename
  would take, unless white space stood before the reserved prefix. */
  lemma NewNameAllowedIff(raw: string)
    requires IsPersistentName(raw)
    ensures IsPersistentName(Trim(raw)) <==> !(IsSpace(raw[0]) && HasGroupPrefix(Trim(raw)))
  {
    TrimmedNameValid(raw);
    if !IsSpace(raw[0]) {
      TrimEndPrefix(raw);
      assert |Trim(raw)| >= 6 ==> Trim(raw)[..6] == raw[..6];
    }
  }

  /** Such a name, which no later rename would take as an old one. */
  lemma SpacedPrefixSlips()
    ensures IsPersistentName(" group:x") && Trim(" group:x") == "group:x" && !IsPersistentName("group:x")
  {
    var raw, name := " group:x", "group:x";
    assert raw[1..] == name && TrimStart(name) == name && TrimStart(raw) == TrimStart(raw[1..]);
    assert TrimEnd(name) == name && Trim(name) == name;
    assert raw[..6] == " group" && name[..6] == "group:";
    assert " group"[0] != "group:"[0] && name[0] == 'g';
    assert "default"[0] == 'd' && "__app__"[0] == '_' && |"global"| == 6;
  }

  lemma {:induction false} TrimEndPrefix(s: string)
    ensures TrimEnd(s) <= s
    decreases |s|
  {
    if s != [] && IsSpace(s[|s| - 1]) {
      TrimEndPrefix(s[..|s| - 1]);
    }
  }

  /** The names of contacts stay apart, case aside, in every state a rename leaves
  the disk in. */
  lemma SafeKeepsApart(job: Job, dirs: Dirs)
    requires job.Valid() && NoTwinContacts(job.start) && !TakenByOther(job.start, job.old_name, job.new_name)
    requires job.Safe(dirs)
    ensures NoTwinContacts(dirs)
  {
    var own := {Profile(job.old_name), Profile(job.new_name), Staging(job.nonce)};
    forall d | d in dirs && d !in own ensures d in job.start {
      assert d in dirs - own;
      assert d in job.start - own;
    }
    forall d, e | d in dirs && e in dirs && d.Profile? && e.Profile? && d != e ensures !SameIgnoringCase(d.name, e.name) {
      if d !in job.start {
        NewIsApart(job, dirs, e);
      } else if e !in job.start {
        NewIsApart(job, dirs, d);
      }
    }
  }

  lemma NewIsApart(job: Job, dirs: Dirs, d: Dir)
    requires job.Valid() && NoTwinContacts(job.start) && !TakenByOther(job.start, job.old_name, job.new_name)
    requires job.Safe(dirs) && Profile(job.new_name) in dirs && Profile(job.new_name) !in job.start
    requires d in dirs && d in job.start && d.Profile?
    ensures !SameIgnoringCase(d.name, job.new_name)
  {
    assert d != Profile(job.old_name);
  }

  /** No call stops the program before the undo, and every call of the undo works:
  after the first of `n` calls that fails, or, when they are all planned to work,
  after the obstacle that the program meets at their end. */
  ghost predicate UndoWorks(disk: Disk, from: nat, n: nat, free: bool)
    requires n > 0
  {
    disk.FailsOnce(from, n) && (disk.Planned(from, n) && !free ==> disk.PlannedAfter(from + n - 1))
  }

  /** The first of these calls to fail is the second, third, fourth or fifth: it
  cut the atomic write of the metadata short, which nothing cleans up. */
  ghost predicate WriteBroke(disk: Disk, from: nat) {
    disk.Planned(from, 1) && !disk.Planned(from, 5)
  }

  /** A call failed on the way to the new place, so the undo works. */
  lemma Undoes(disk: Disk, from: nat)
    requires disk.JustFailed(from, 7)
    ensures disk.FailsOnce(from, 8) ==> disk.Reliable()
    ensures !disk.Planned(from, 8)
  {
    if disk.FailsOnce(from, 8) {
      disk.ReliableAfterFailure(from, 8);
    }
  }

  /** Directory and file modes, one call each. */
  method SetModes(disk: Disk) returns (ok: bool)
    requires !disk.stopped
    modifies disk`turn, disk`stopped
    ensures disk.Sofar(old(disk.turn), 2, ok)
  {
    ghost var from := disk.turn;
    ok := disk.Chmod();
    disk.OneMore(from, 0, ok);
    if ok {
      ok := disk.Chmod();
      disk.OneMore(from, 1, ok);
    }
  }

  method RenameContact(disk: Disk, json: Json, old_name: string, raw: string, nonce: nat)
    returns (result: Result<Meta, RenameError>)
    requires disk.trace == [disk.dirs] && !disk.stopped
    modifies disk
    // Exactly when it succeeds, for every input, and with what.
    ensures result.Ok? <==>
              && IsPersistentName(old_name) && IsPersistentName(raw)
              && if old_name == Trim(raw) then LoadMeta(json, old(disk.dirs), old_name).Some?
                 else
                   && Admissible(json, old(disk.dirs), old_name, raw, nonce) && Printable(json, old(disk.dirs), old_name, raw)
                   && disk.Planned(old(disk.turn), 10)
                   && JobOf(json, old(disk.dirs), old_name, raw, nonce).NewPlaceFree()
    ensures result.Ok? ==>
              var loaded := LoadMeta(json, old(disk.dirs), old_name);
              loaded.Some? && result.value == if old_name == Trim(raw) then loaded.value else loaded.value.(name := Trim(raw))
    // Each refusal by its own condition; a refused call makes no file-system call.
    ensures result == Err(InvalidName) <==> !IsPersistentName(old_name) || !IsPersistentName(raw)
    ensures result == Err(NameTaken) <==>
              Asked(old_name, raw) && TakenByOther(old(disk.dirs), old_name, Trim(raw))
    ensures result == Err(Missing) <==>
              Asked(old_name, raw) && !TakenByOther(old(disk.dirs), old_name, Trim(raw)) && Profile(old_name) !in old(disk.dirs)
    ensures result == Err(StagingTaken) <==>
              && Asked(old_name, raw) && !TakenByOther(old(disk.dirs), old_name, Trim(raw)) && Profile(old_name) in old(disk.dirs)
              && Staging(nonce) in old(disk.dirs)
    ensures result == Err(Unreadable) <==>
              && IsPersistentName(old_name) && IsPersistentName(raw) && LoadMeta(json, old(disk.dirs), old_name).None?
              && (old_name == Trim(raw)
                  || (!TakenByOther(old(disk.dirs), old_name, Trim(raw)) && Profile(old_name) in old(disk.dirs)
                      && Staging(nonce) !in old(disk.dirs)))
    ensures !Admissible(json, old(disk.dirs), old_name, raw, nonce) ==>
              disk.dirs == old(disk.dirs) && disk.trace == [disk.dirs] && disk.turn == old(disk.turn)
    ensures result == Err(Unprintable) <==>
              && Admissible(json, old(disk.dirs), old_name, raw, nonce) && !Printable(json, old(disk.dirs), old_name, raw)
              && disk.Planned(old(disk.turn), 2)
    // Whatever fails and wherever the program stops, the contact is whole; after a
    // failure that leaves the undo to work, it is as it was.
    ensures Admissible(json, old(disk.dirs), old_name, raw, nonce) ==>
            var job, printable := JobOf(json, old(disk.dirs), old_name, raw, nonce), Printable(json, old(disk.dirs), old_name, raw);
            && job.Valid() && AllSafe(job, disk.trace)
            && (result.Ok? ==> job.Finished(disk.dirs) && json.show(result.value) == Some(job.text))
            && (result.Ok? && disk.Planned(old(disk.turn), 11) ==> OLD_META !in disk.dirs[Profile(job.new_name)])
            && (result.Err? && UndoWorks(disk, old(disk.turn), if printable then 10 else 2, printable && job.NewPlaceFree()) ==>
                  Undone(disk, job, old(disk.turn) + 2, printable))
  {
    if !IsPersistentName(old_name) || !IsPersistentName(raw) {
      return Err(InvalidName);
    }
    var new_name := Trim(raw);
    if old_name == new_name {
      var same := LoadMeta(json, disk.dirs, old_name);
      result := if same.None? then Err(Unreadable) else Ok(same.value);
      return;
    }
    if TakenByOther(disk.dirs, old_name, new_name) {
      return Err(NameTaken);
    }
    if Profile(old_name) !in disk.dirs {
      return Err(Missing);
    }
    if Profile(new_name) in disk.dirs && !SameIgnoringCase(old_name, new_name) {
      return Err(NameTaken);
    }
    if Staging(nonce) in disk.dirs {
      return Err(StagingTaken);
    }
    var loaded := LoadMeta(json, disk.dirs, old_name);
    if loaded.None? {
      return Err(Unreadable);
    }
    TrimmedNameValid(raw);
    result := CarryOut(disk, json, JobOf(json, disk.dirs, old_name, raw, nonce), loaded.value.(name := new_name));
  }

  /** Two proper names that differ. */
  predicate Asked(old_name: string, raw: string) {
    IsPersistentName(old_name) && IsPersistentName(raw) && old_name != Trim(raw)
  }

  /** The old directory has its metadata and its other files again; where none of
  the names the rename adds was there before, and the atomic write was not cut
  short, everything is exactly as it was. */
  ghost predicate Undone(disk: Disk, job: Job, from: nat, printable: bool)
    requires job.Valid()
    reads disk`dirs
  {
    && (disk.dirs == job.start || job.Restored(disk.dirs))
    && (job.NoStrays(job.Before()) && OLD_META !in job.Before() && !(printable && WriteBroke(disk, from)) ==>
          disk.dirs == job.start)
  }

  /** Everything after the checks. */
  method CarryOut(disk: Disk, json: Json, job: Job, meta: Meta)
    returns (result: Result<Meta, RenameError>)
    requires job.Valid() && disk.dirs == job.start && disk.trace == [disk.dirs] && !disk.stopped
    requires job.text == json.show(meta).GetOr("")
    modifies disk
    ensures AllSafe(job, disk.trace)
    ensures result.Ok? ==> job.Finished(disk.dirs) && result.value == meta && json.show(meta) == Some(job.text)
    ensures result.Ok? <==> disk.Planned(old(disk.turn), 10) && json.show(meta).Some? && job.NewPlaceFree()
    ensures result.Ok? && disk.Planned(old(disk.turn), 11) ==> OLD_META !in disk.dirs[Profile(job.new_name)]
    ensures result.Err? ==> result.error == if json.show(meta).None? && disk.Planned(old(disk.turn), 2) then Unprintable else CallFailed
    ensures result.Err? && json.show(meta).Some? && UndoWorks(disk, old(disk.turn), 10, job.NewPlaceFree()) ==>
              Undone(disk, job, old(disk.turn) + 2, true)
    ensures result.Err? && json.show(meta).None? && UndoWorks(disk, old(disk.turn), 2, false) ==>
              Undone(disk, job, old(disk.turn) + 2, false)
  {
    assert job.AtOld(disk.dirs);
    ghost var from := disk.turn;
    var staged := Stage(disk, job);
    if !staged {
      return Err(CallFailed);
    }
    if json.show(meta).None? {
      RollBack(disk, job, false);
      Clean(disk, job, from + 2, false);
      return Err(Unprintable);
    }
    var moved := Complete(disk, job);
    if !moved {
      Clean(disk, job, from + 2, true);
    }
    result := if moved then Ok(meta) else Err(CallFailed);
  }

  lemma Clean(disk: Disk, job: Job, from: nat, printable: bool)
    requires job.Valid()
    ensures && job.Restored(disk.dirs)
            && (!(printable && WriteBroke(disk, from)) && job.NoStrays(job.Before()) ==> job.NoStrays(disk.dirs[Profile(job.old_name)]))
            ==> Undone(disk, job, from, printable)
  {
    if job.Restored(disk.dirs) && job.NoStrays(disk.dirs[Profile(job.old_name)]) && job.NoStrays(job.Before()) && OLD_META !in job.Before() {
      job.AsItWas(disk.dirs);
    }
  }

  /** From the staging directory to the new place, eight calls, or undone. */
  method Complete(disk: Disk, job: Job) returns (ok: bool)
    requires job.Valid() && job.Staged(disk.dirs) && AllSafe(job, disk.trace) && !disk.stopped
    requires var files := disk.dirs[Staging(job.nonce)];
             && (Dat(job.new_name) in files <==> Dat(job.new_name) in job.Before())
             && (Tmp(job.new_name) in files <==> Tmp(job.new_name) in job.Before())
    modifies disk
    ensures AllSafe(job, disk.trace)
    ensures ok ==> job.Finished(disk.dirs)
    ensures ok <==> disk.Planned(old(disk.turn), 8) && job.NewPlaceFree()
    ensures disk.Planned(old(disk.turn), 9) && job.NewPlaceFree() ==> OLD_META !in disk.dirs[Profile(job.new_name)]
    ensures !ok && UndoWorks(disk, old(disk.turn), 8, job.NewPlaceFree()) ==>
              && job.Restored(disk.dirs)
              && (!WriteBroke(disk, old(disk.turn)) && job.NoStrays(job.Before()) ==> job.NoStrays(disk.dirs[Profile(job.old_name)]))
  {
    ghost var from := disk.turn;
    ok := WriteNewMeta(disk, job);
    if !ok {
      Undoes(disk, from);
      RollBack(disk, job, false);
      return;
    }
    ok := SetModes(disk);
    disk.Chained(from, 5, 2, ok);
    if !ok {
      Undoes(disk, from);
      RollBack(disk, job, true);
      return;
    }
    ok := MoveToNewName(disk, job);
  }

  /** On success the contact loads under its new name as the metadata it had,
  name aside, and every file but the special ones is unchanged. */
  lemma FinishedLoads(json: Json, dirs: Dirs, old_name: string, raw: string, nonce: nat, after: Dirs)
    requires RoundTrips(json) && Admissible(json, dirs, old_name, raw, nonce)
    requires json.show(LoadMeta(json, dirs, old_name).value.(name := Trim(raw))).Some?
    requires JobOf(json, dirs, old_name, raw, nonce).Valid() && JobOf(json, dirs, old_name, raw, nonce).Finished(after)
    ensures LoadMeta(json, after, Trim(raw)) == Some(LoadMeta(json, dirs, old_name).value.(name := Trim(raw)))
    ensures LoadMeta(json, after, old_name) == None
    ensures forall f :: f in dirs[Profile(old_name)] && f !in JobOf(json, dirs, old_name, raw, nonce).Special() ==>
              f in after[Profile(Trim(raw))] && after[Profile(Trim(raw))][f] == dirs[Profile(old_name)][f]
  {
    var job := JobOf(json, dirs, old_name, raw, nonce);
    var files := after[Profile(Trim(raw))];
    assert files - job.Special() == job.Before() - job.Special();
    forall f | f in job.Before() && f !in job.Special() ensures f in files && files[f] == job.Before()[f] {
      assert f in job.Before() - job.Special();
      assert f in files - job.Special();
      assert (files - job.Special())[f] == (job.Before() - job.Special())[f];
    }
  }

  predicate InRange(m: Meta) {
    MIN_HOPS <= m.hops <= MAX_HOPS && MIN_QUANTITY <= m.quantity <= MAX_QUANTITY
  }

  /** What loading gives is in range, and changes only what was not. */
  lemma NormalizedIff(m: Meta)
    ensures InRange(Normalized(m)) && Normalized(m) == m.(hops := Normalized(m).hops, quantity := Normalized(m).quantity)
    ensures Normalized(m).hops == m.hops <==> MIN_HOPS <= m.hops <= MAX_HOPS
    ensures Normalized(m).quantity == m.quantity <==> MIN_QUANTITY <= m.quantity <= MAX_QUANTITY
    ensures Normalized(m) == m <==> InRange(m)
  {
  }

  /** A rename changes nothing in the metadata but the name exactly when the tunnel
  settings were in range: loading has replaced the others by their defaults. */
  lemma OnlyNameChangesIff(json: Json, dirs: Dirs, old_name: string, raw: string, nonce: nat, after: Dirs, stored: Meta)
    requires RoundTrips(json) && Admissible(json, dirs, old_name, raw, nonce)
    requires json.show(LoadMeta(json, dirs, old_name).value.(name := Trim(raw))).Some?
    requires JobOf(json, dirs, old_name, raw, nonce).Valid() && JobOf(json, dirs, old_name, raw, nonce).Finished(after)
    requires json.parse(dirs[Profile(old_name)][Dat(old_name)]) == Some(stored)
    ensures json.parse(after[Profile(Trim(raw))][Dat(Trim(raw))]) == Some(stored.(name := Trim(raw))) <==> InRange(stored)
  {
    NormalizedIff(stored);
    var m := Normalized(stored).(name := Trim(raw));
    assert json.parse(json.show(m).value) == Some(m);
  }

  /** Such a case, for any rename of a contact stored without hops: the metadata
  written asks for two. */
  lemma RenameResetsHops(json: Json, dirs: Dirs, old_name: string, raw: string, nonce: nat, after: Dirs, stored: Meta)
    requires RoundTrips(json) && Admissible(json, dirs, old_name, raw, nonce)
    requires json.show(LoadMeta(json, dirs, old_name).value.(name := Trim(raw))).Some?
    requires JobOf(json, dirs, old_name, raw, nonce).Valid() && JobOf(json, dirs, old_name, raw, nonce).Finished(after)
    requires json.parse(dirs[Profile(old_name)][Dat(old_name)]) == Some(stored) && stored.hops == 0
    ensures json.parse(after[Profile(Trim(raw))][Dat(Trim(raw))]).Some?
    ensures json.parse(after[Profile(Trim(raw))][Dat(Trim(raw))]).value.hops == DEFAULT_HOPS == 2
    ensures json.parse(after[Profile(Trim(raw))][Dat(Trim(raw))]) != Some(stored.(name := Trim(raw)))
  {
    OnlyNameChangesIff(json, dirs, old_name, raw, nonce, after, stored);
    var m := Normalized(stored).(name := Trim(raw));
    assert json.parse(json.show(m).value) == Some(m);
  }

  lemma LetterName(name: string)
    requires |name| == 1 && 'a' <= name[0] <= 'z'
    ensures IsPersistentName(name) && Trim(name) == name
  {
    assert TrimStart(name) == name && TrimEnd(name) == name;
  }

  /** And run: the only contact, stored without hops, renamed by calls that all work. */
  method RenameWithoutHops(json: Json, others: string, nonce: nat) returns (after: Dirs, result: Result<Meta, RenameError>)
    requires RoundTrips(json) && json.show(Meta("a", 0, 3, others)).Some? && json.show(Meta("b", 2, 3, others)).Some?
    ensures result == Ok(Meta("b", 2, 3, others))
    ensures LoadMeta(json, after, "b") == Some(Meta("b", 2, 3, others))
  {
    var stored := Meta("a", 0, 3, others);
    var files: Files := map[Dat("a") := json.show(stored).value];
    var disk := new Disk(_ => Works, map[Profile("a") := files]);
    LetterName("a");
    LetterName("b");
    assert json.parse(json.show(stored).value) == Some(stored);
    assert Admissible(json, disk.dirs, "a", "b", nonce);
    ghost var before := disk.dirs;
    result := RenameContact(disk, json, "a", "b", nonce);
    after := disk.dirs;
    FinishedLoads(json, before, "a", "b", nonce, after);
  }
}
