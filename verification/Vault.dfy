/** Opening and closing the encrypted vault: a plaintext directory, a vault file
and a temporary file, changed one file-system call at a time.

Archive, key derivation, cipher and the JSON of the header are parameters, used
only through the laws in `Ideal`. Every call may work, fail or be the last one
before the program stops; after a stop further calls do nothing. */
module Vault {
  import opened Wrappers
  import opened Octets
  import opened Text
  import opened Hex
  import opened Encoding

  const VAULT_MAGIC: string := "TERMCHAT-I2P-VAULT-V1\n"
  const VAULT_VERSION: nat := 1
  const SALT_OCTETS: nat := 16
  const NONCE_OCTETS: nat := 24

  /** A directory tree, the empty directories included. */
  datatype Tree = Tree(dirs: set<string>, files: map<string, string>)

  const EMPTY: Tree := Tree({}, map[])

  datatype Envelope = Envelope(
    format: string, version: nat, kdf: string, cipher: string, compression: string, saltHex: string, nonceHex: string)

  datatype Primitives = Primitives(
    derive: (string, string) -> Option<string>,             // passphrase, salt
    seal: (string, string, string) -> string,               // key, nonce, plaintext
    unseal: (string, string, string) -> Option<string>,     // key, nonce, ciphertext
    show: Envelope -> string,
    parse: string -> Option<Envelope>,
    pack: Tree -> string,
    unpack: string -> Option<Tree>)

  /** The laws assumed: what is written reads back, and a ciphertext opens under
  no other key than its own. */
  ghost predicate Ideal(p: Primitives) {
    && (forall k, n, x :: p.unseal(k, n, p.seal(k, n, x)) == Some(x))
    && (forall k, k', n, x :: p.unseal(k', n, p.seal(k, n, x)).Some? ==> k' == k)
    && (forall e :: p.parse(p.show(e)) == Some(e))
    && (forall salt, nonce :: Fresh(salt, nonce) ==> |p.show(HeaderFor(salt, nonce))| <= U32_MAX)
    && (forall t :: p.unpack(p.pack(t)) == Some(t))
  }

  datatype VaultError = Io | Crypto | Format | Serde

  // ---------- the vault file ----------

  function HeaderFor(salt: string, nonce: string): Envelope {
    Envelope("termchat-i2p-encrypted-vault", VAULT_VERSION, "argon2id", "xsalsa20poly1305", "tar.gz",
             HexEncode(salt), HexEncode(nonce))
  }

  function Framed(header: string, body: string): string {
    VAULT_MAGIC + (BigEndian(|header|, 4) + (header + body))
  }

  /** `encrypt_payload`, with its random salt and nonce as arguments. */
  function EncryptPayload(p: Primitives, payload: string, pass: string, salt: string, nonce: string):
    Result<string, VaultError>
  {
    match p.derive(pass, salt)
    case None => Err(Crypto)
    case Some(key) => Ok(Framed(p.show(HeaderFor(salt, nonce)), p.seal(key, nonce, payload)))
  }

  /** The header and what follows it. */
  function Unframe(data: string): Result<(string, string), VaultError> {
    var offset := |VAULT_MAGIC|;
    if !(VAULT_MAGIC <= data) then Err(Format)
    else if |data| < offset + 4 then Err(Format)
    else
      var end := offset + 4 + FromBigEndian(data[offset..offset + 4]);
      if |data| < end then Err(Format) else Ok((data[offset + 4..end], data[end..]))
  }

  predicate Supported(e: Envelope) {
    && e.format == "termchat-i2p-encrypted-vault" && e.version == VAULT_VERSION
    && e.kdf == "argon2id" && e.cipher == "xsalsa20poly1305" && e.compression == "tar.gz"
  }

  function OpenBody(p: Primitives, e: Envelope, body: string, pass: string): Result<string, VaultError> {
    if !Supported(e) then Err(Format)
    else if HexDecode(e.saltHex).None? || HexDecode(e.nonceHex).None? then Err(Format)
    else if |HexDecode(e.nonceHex).value| != NONCE_OCTETS then Err(Format)
    else if p.derive(pass, HexDecode(e.saltHex).value).None? then Err(Crypto)
    else
      match p.unseal(p.derive(pass, HexDecode(e.saltHex).value).value, HexDecode(e.nonceHex).value, body)
      case None => Err(Crypto)
      case Some(payload) => Ok(payload)
  }

  function DecryptPayload(p: Primitives, data: string, pass: string): Result<string, VaultError> {
    match Unframe(data)
    case Err(e) => Err(e)
    case Ok((header, body)) =>
      match p.parse(header)
      case None => Err(Serde)
      case Some(e) => OpenBody(p, e, body, pass)
  }

  ghost predicate Fresh(salt: string, nonce: string) {
    |salt| == SALT_OCTETS && IsOctets(salt) && |nonce| == NONCE_OCTETS && IsOctets(nonce)
  }

  lemma Sections(a: string, b: string, c: string, d: string)
    ensures var all := a + (b + (c + d));
            && all[|a|..|a| + |b|] == b
            && all[|a| + |b|..|a| + |b| + |c|] == c
            && all[|a| + |b| + |c|..] == d
  {
  }

  lemma UnframeFramed(header: string, body: string)
    requires |header| <= U32_MAX
    ensures Unframe(Framed(header, body)) == Ok((header, body))
  {
    var offset := |VAULT_MAGIC|;
    var data := Framed(header, body);
    RadixValues();
    BigEndianRoundTrip(|header|, 4);
    var size := BigEndian(|header|, 4);
    Sections(VAULT_MAGIC, size, header, body);
    assert data[..offset] == VAULT_MAGIC;
  }

  /** A sealed payload opens to itself under its passphrase, and under any other
  to itself or not at all. */
  lemma PayloadRoundTrip(p: Primitives, payload: string, pass: string, salt: string, nonce: string, other: string)
    requires Ideal(p) && Fresh(salt, nonce) && EncryptPayload(p, payload, pass, salt, nonce).Ok?
    ensures var data := EncryptPayload(p, payload, pass, salt, nonce).value;
            && DecryptPayload(p, data, pass) == Ok(payload)
            && (DecryptPayload(p, data, other) == Ok(payload) || DecryptPayload(p, data, other) == Err(Crypto))
  {
    var e := HeaderFor(salt, nonce);
    var key := p.derive(pass, salt).value;
    UnframeFramed(p.show(e), p.seal(key, nonce, payload));
    assert p.parse(p.show(e)) == Some(e);
    HexRoundTrip(salt);
    HexRoundTrip(nonce);
    assert p.unseal(key, nonce, p.seal(key, nonce, payload)) == Some(payload);
  }

  /** A file cut short before its ciphertext is refused. */
  lemma CutFileRefused(header: string, body: string, k: nat)
    requires |header| <= U32_MAX && k < |VAULT_MAGIC| + 4 + |header|
    ensures Unframe(Framed(header, body)[..k]) == Err(Format)
  {
    var data := Framed(header, body);
    var cut := data[..k];
    if VAULT_MAGIC <= cut && |cut| >= |VAULT_MAGIC| + 4 {
      RadixValues();
      BigEndianRoundTrip(|header|, 4);
      Sections(VAULT_MAGIC, BigEndian(|header|, 4), header, body);
      assert cut[|VAULT_MAGIC|..|VAULT_MAGIC| + 4] == data[|VAULT_MAGIC|..|VAULT_MAGIC| + 4];
    }
  }

  /** Whatever file opens, its header names this format, this version and these
  algorithms, and a nonce of the right length. */
  lemma OpenedHeader(p: Primitives, data: string, pass: string)
    requires DecryptPayload(p, data, pass).Ok?
    ensures Unframe(data).Ok? && p.parse(Unframe(data).value.0).Some?
    ensures var e := p.parse(Unframe(data).value.0).value;
            && e.format == "termchat-i2p-encrypted-vault" && e.version == 1
            && e.kdf == "argon2id" && e.cipher == "xsalsa20poly1305" && e.compression == "tar.gz"
            && HexDecode(e.nonceHex).Some? && |HexDecode(e.nonceHex).value| == 24
  {
  }

  // ---------- the laws can be met ----------

  function EnvelopeTexts(e: Envelope): seq<string> {
    [e.format, Dec(e.version), e.kdf, e.cipher, e.compression, e.saltHex, e.nonceHex]
  }

  ghost function TreeTexts(t: Tree): seq<string> {
    var names := Members(t.files.Keys);
    [Listed(Members(t.dirs)), Listed(names), Listed(seq(|names|, i requires 0 <= i < |names| => t.files[names[i]]))]
  }

  lemma EnvelopeTextsInjective(a: Envelope, b: Envelope)
    ensures Listed(EnvelopeTexts(a)) == Listed(EnvelopeTexts(b)) <==> a == b
  {
    var x, y := EnvelopeTexts(a), EnvelopeTexts(b);
    ListedInjective(x, y);
    if x == y {
      assert x[0] == y[0] && x[1] == y[1] && x[2] == y[2] && x[3] == y[3] && x[4] == y[4] && x[5] == y[5] && x[6] == y[6];
      DecInjective(a.version, b.version);
    }
  }

  lemma TreeTextsInjective(a: Tree, b: Tree)
    ensures Listed(TreeTexts(a)) == Listed(TreeTexts(b)) <==> a == b
  {
    var x, y := TreeTexts(a), TreeTexts(b);
    ListedInjective(x, y);
    if x == y {
      assert x[0] == y[0] && x[1] == y[1] && x[2] == y[2];
      ListedInjective(Members(a.dirs), Members(b.dirs));
      SameMembers(a.dirs, b.dirs);
      var names := Members(a.files.Keys);
      ListedInjective(names, Members(b.files.Keys));
      SameMembers(a.files.Keys, b.files.Keys);
      var m, n := seq(|names|, i requires 0 <= i < |names| => a.files[names[i]]), seq(|names|, i requires 0 <= i < |names| => b.files[names[i]]);
      ListedInjective(m, n);
      forall f | f in a.files ensures a.files[f] == b.files[f] {
        assert f in names;
        var i :| 0 <= i < |names| && names[i] == f;
        assert m[i] == n[i];
      }
    }
  }

  lemma SameMembers(a: set<string>, b: set<string>)
    requires Members(a) == Members(b)
    ensures a == b
  {
    assert forall x :: x in a <==> x in Members(a);
    assert forall x :: x in b <==> x in Members(b);
  }

  lemma ShortHeader(salt: string, nonce: string)
    requires Fresh(salt, nonce)
    ensures |Listed(EnvelopeTexts(HeaderFor(salt, nonce)))| <= U32_MAX
  {
    HexLength(salt);
    HexLength(nonce);
    assert Dec(1) == "1";
    ShortList(EnvelopeTexts(HeaderFor(salt, nonce)));
  }

  lemma ShortList(texts: seq<string>)
    requires |texts| == 7 && forall i :: 0 <= i < 7 ==> |texts[i]| <= 100
    ensures |Listed(texts)| <= U32_MAX
  {
    ListedPlain(texts);
    SizeOfSeven(texts);
  }

  lemma SizeOfSeven(texts: seq<string>)
    requires |texts| == 7
    ensures ListedSize(texts) == 15 + 3 * (|texts[0]| + |texts[1]| + |texts[2]| + |texts[3]| + |texts[4]| + |texts[5]| + |texts[6]|)
  {
    SizeFrom(texts, 6);
    SizeFrom(texts, 5);
    SizeFrom(texts, 4);
    SizeFrom(texts, 3);
    SizeFrom(texts, 2);
    SizeFrom(texts, 1);
  }

  lemma SizeFrom(texts: seq<string>, k: nat)
    requires k < |texts|
    ensures ListedSize(texts[k..]) == 3 * |texts[k]| + 2 + ListedSize(texts[k + 1..])
  {
    assert texts[k..][1..] == texts[k + 1..];
  }

  ghost function ReadEnvelope(code: string): Option<Envelope> {
    if exists e :: Listed(EnvelopeTexts(e)) == code then
      var e :| Listed(EnvelopeTexts(e)) == code;
      Some(e)
    else None
  }

  ghost function ReadTree(code: string): Option<Tree> {
    if exists t :: Listed(TreeTexts(t)) == code then
      var t :| Listed(TreeTexts(t)) == code;
      Some(t)
    else None
  }

  /** The laws exclude nothing: there are primitives that meet them all. */
  lemma IdealIsMet() returns (p: Primitives)
    ensures Ideal(p) && forall pass, salt :: p.derive(pass, salt).Some?
  {
    p := Primitives(
      (pass, salt) => Some(pass),
      (key, nonce, x) => SealOpenly(key, nonce, x),
      (key, nonce, c) => UnsealOpenly(key, nonce, c),
      e => Listed(EnvelopeTexts(e)),
      code => ReadEnvelope(code),
      t => Listed(TreeTexts(t)),
      code => ReadTree(code));
    forall k, k', n, x
      ensures p.unseal(k, n, p.seal(k, n, x)) == Some(x)
      ensures p.unseal(k', n, p.seal(k, n, x)).Some? ==> k' == k
    {
      OpenCipherLaws(k, n, x, k');
    }
    forall e ensures p.parse(p.show(e)) == Some(e) {
      EnvelopeTextsInjective(e, ReadEnvelope(p.show(e)).value);
    }
    forall t ensures p.unpack(p.pack(t)) == Some(t) {
      TreeTextsInjective(t, ReadTree(p.pack(t)).value);
    }
    forall salt, nonce | Fresh(salt, nonce) ensures |p.show(HeaderFor(salt, nonce))| <= U32_MAX {
      ShortHeader(salt, nonce);
    }
  }

  // ---------- the disk ----------

  datatype Fate = Works | Fails | Stops

  datatype Disk = Disk(base: Option<Tree>, vault: Option<string>, tmp: Option<string>)

  /** The disk together with the newest tree and the passphrase of the vault. */
  datatype Snapshot = Snapshot(disk: Disk, newest: Tree, pass: string)

  const TOPS: set<string> := {"profiles", "files"}

  function Plain(disk: Disk): Tree {
    disk.base.GetOr(EMPTY)
  }

  predicate HasEntries(t: Tree) {
    t.dirs != {} || t.files != map[]
  }

  predicate IsStore(t: Tree) {
    TOPS <= t.dirs
  }

  function WithTop(t: Tree, name: string): Tree {
    t.(dirs := t.dirs + {name})
  }

  function WithTops(t: Tree): Tree {
    t.(dirs := t.dirs + TOPS)
  }

  /** Equal up to the two top directories, which opening and closing create. */
  ghost predicate SameTree(a: Tree, b: Tree) {
    a.files == b.files && a.dirs - TOPS == b.dirs - TOPS
  }

  ghost predicate VaultHolds(p: Primitives, disk: Disk, pass: string, t: Tree) {
    && disk.vault.Some?
    && (forall any :: DecryptPayload(p, disk.vault.value, any).Ok? ==> DecryptPayload(p, disk.vault.value, any).value == p.pack(t))
    && DecryptPayload(p, disk.vault.value, pass) == Ok(p.pack(t))
  }

  ghost predicate VaultHasNewest(p: Primitives, s: Snapshot) {
    exists t :: VaultHolds(p, s.disk, s.pass, t) && SameTree(t, s.newest)
  }

  /** Nothing is in the way, and the passphrase opens the vault to a store. */
  predicate Opens(p: Primitives, disk: Disk, pass: string) {
    && !HasEntries(Plain(disk)) && disk.vault.Some? && DecryptPayload(p, disk.vault.value, pass).Ok?
    && var tree := p.unpack(DecryptPayload(p, disk.vault.value, pass).value);
       tree.Some? && IsStore(tree.value)
  }

  /** The newest tree is whole in the plaintext directory, or it is what the vault
  decrypts to. */
  ghost predicate Safe(p: Primitives, s: Snapshot) {
    SameTree(Plain(s.disk), s.newest) || VaultHasNewest(p, s)
  }

  /** What holds at every step of a careful run: safety, a vault that always
  opens, and no empty plaintext directory unless the vault has the newest tree. */
  ghost predicate Sound(p: Primitives, s: Snapshot) {
    if s.disk.vault.None? then SameTree(Plain(s.disk), s.newest)
    else
      && (exists t :: IsStore(t) && VaultHolds(p, s.disk, s.pass, t))
      && (VaultHasNewest(p, s) || (HasEntries(Plain(s.disk)) && SameTree(Plain(s.disk), s.newest)))
  }

  ghost predicate AllSound(p: Primitives, trace: seq<Snapshot>) {
    forall i :: 0 <= i < |trace| ==> Sound(p, trace[i])
  }

  /** A change of plaintext and temporary file that keeps the tree. */
  lemma SoundStays(p: Primitives, a: Snapshot, b: Snapshot)
    requires Sound(p, a)
    requires a.newest == b.newest && a.pass == b.pass && a.disk.vault == b.disk.vault
    requires VaultHasNewest(p, a) ||
             (SameTree(Plain(a.disk), Plain(b.disk)) && (HasEntries(Plain(a.disk)) ==> HasEntries(Plain(b.disk))))
    ensures Sound(p, b)
  {
    forall t | VaultHolds(p, a.disk, a.pass, t) ensures VaultHolds(p, b.disk, b.pass, t) {}
    if a.disk.vault.Some? {
      var t :| IsStore(t) && VaultHolds(p, a.disk, a.pass, t);
      assert IsStore(t) && VaultHolds(p, b.disk, b.pass, t);
      if VaultHasNewest(p, a) {
        var n :| VaultHolds(p, a.disk, a.pass, n) && SameTree(n, a.newest);
        assert VaultHolds(p, b.disk, b.pass, n);
      }
    }
  }

  /** A vault that holds a tree has the newest one exactly when it is that tree. */
  lemma HoldsOne(p: Primitives, s: Snapshot, sealed: Tree)
    requires Ideal(p) && VaultHolds(p, s.disk, s.pass, sealed)
    ensures VaultHasNewest(p, s) <==> SameTree(sealed, s.newest)
  {
    if VaultHasNewest(p, s) {
      var t :| VaultHolds(p, s.disk, s.pass, t) && SameTree(t, s.newest);
      assert p.unpack(p.pack(sealed)) == Some(sealed) && p.unpack(p.pack(t)) == Some(t);
    }
  }

  lemma SameVault(p: Primitives, a: Snapshot, b: Snapshot, t: Tree)
    requires VaultHolds(p, a.disk, a.pass, t) && a.disk.vault == b.disk.vault && a.pass == b.pass
    ensures VaultHolds(p, b.disk, b.pass, t)
  {
  }

  lemma SealedHolds(p: Primitives, t: Tree, pass: string, salt: string, nonce: string)
    requires Ideal(p) && Fresh(salt, nonce) && EncryptPayload(p, p.pack(t), pass, salt, nonce).Ok?
    ensures VaultHolds(p, Disk(None, Some(EncryptPayload(p, p.pack(t), pass, salt, nonce).value), None), pass, t)
  {
    var data := EncryptPayload(p, p.pack(t), pass, salt, nonce).value;
    forall any | DecryptPayload(p, data, any).Ok? ensures DecryptPayload(p, data, any).value == p.pack(t) {
      PayloadRoundTrip(p, p.pack(t), pass, salt, nonce, any);
    }
    PayloadRoundTrip(p, p.pack(t), pass, salt, nonce, pass);
  }

  /** `n` calls in a row work. */
  ghost predicate AllWork(plan: nat -> Fate, from: nat, n: nat) {
    forall k :: from <= k < from + n ==> plan(k) == Works
  }

  lemma WorkInTwo(plan: nat -> Fate, from: nat, a: nat, b: nat)
    ensures AllWork(plan, from, a + b) <==> AllWork(plan, from, a) && AllWork(plan, from + a, b)
  {
  }

  lemma OneWorks(plan: nat -> Fate, from: nat)
    ensures AllWork(plan, from, 1) <==> plan(from).Works?
  {
  }

  class VaultStore {
    const prims: Primitives
    const plan: nat -> Fate
    const partial: nat -> Tree
    var disk: Disk
    var turn: nat
    var stopped: bool
    ghost var newest: Tree
    ghost var pass: string
    ghost var trace: seq<Snapshot>

    ghost function Now(): Snapshot
      reads this`disk, this`newest, this`pass
    {
      Snapshot(disk, newest, pass)
    }

    /** Every state so far, and this one, is sound. */
    ghost predicate Careful()
      reads this`disk, this`newest, this`pass, this`trace
    {
      Sound(prims, Now()) && AllSound(prims, trace)
    }

    /** The plaintext is whole: what a successful opening gives and edits keep. */
    ghost predicate Open()
      reads this`disk, this`newest
    {
      disk.base.Some? && IsStore(disk.base.value) && SameTree(disk.base.value, newest)
    }

    /** The next `n` calls work. */
    ghost predicate Works(n: nat)
      reads this`stopped, this`turn
    {
      !stopped && AllWork(plan, turn, n)
    }

    ghost predicate NothingFails()
      reads this`stopped, this`turn
    {
      !stopped && forall k :: turn <= k ==> plan(k) == Fate.Works
    }

    /** One call was made, as planned, unless the program had stopped before. */
    twostate predicate Called(ok: bool)
      reads this`stopped, this`turn
    {
      && ok == (!old(stopped) && plan(old(turn)).Works?)
      && stopped == (old(stopped) || plan(old(turn)).Stops?)
      && turn == old(turn) + if old(stopped) then 0 else 1
    }

    /** A first start: plaintext of any kind, and no vault. */
    constructor (prims: Primitives, plan: nat -> Fate, partial: nat -> Tree, base: Option<Tree>, tmp: Option<string>)
      ensures this.prims == prims && this.plan == plan && this.partial == partial
      ensures disk == Disk(base, None, tmp) && newest == base.GetOr(EMPTY)
      ensures turn == 0 && !stopped && trace == [] && Careful()
    {
      this.prims, this.plan, this.partial := prims, plan, partial;
      this.disk, turn, stopped := Disk(base, None, tmp), 0, false;
      newest, pass, trace := base.GetOr(EMPTY), "", [];
    }

    method Next() returns (fate: Fate)
      modifies this`turn, this`stopped
      ensures Called(fate.Works?)
      ensures fate == if old(stopped) then Fails else plan(old(turn))
    {
      if stopped {
        return Fails;
      }
      fate := plan(turn);
      turn := turn + 1;
      stopped := fate.Stops?;
    }

    ghost method Record()
      modifies this`trace
      ensures trace == old(trace) + [Now()]
    {
      trace := trace + [Now()];
    }

    /** A new process after a stop. */
    method Restart()
      modifies this`stopped
      ensures !stopped
    {
      stopped := false;
    }

    /** The application writes; it keeps the two top directories. */
    method Edit(t: Tree) returns (ok: bool)
      requires Open() && IsStore(t)
      modifies this`disk, this`turn, this`stopped, this`newest, this`trace
      ensures Called(ok) && trace == old(trace) + [Now()] && Open()
      ensures disk == if ok then old(disk).(base := Some(t)) else old(disk)
      ensures newest == if ok then t else old(newest)
      ensures old(Careful()) ==> Careful()
    {
      var fate := Next();
      ok := fate.Works?;
      if ok {
        disk := disk.(base := Some(t));
        newest := t;
      }
      Record();
      if old(Careful()) {
        EditedIsSound(prims, old(Now()), Now());
      }
    }

    /** `create_dir_all` of one of the two top directories. */
    method MakeDir(name: string) returns (ok: bool)
      requires name in TOPS
      modifies this`disk, this`turn, this`stopped, this`trace
      ensures Called(ok) && trace == old(trace) + [Now()]
      ensures disk == if ok then old(disk).(base := Some(WithTop(Plain(old(disk)), name))) else old(disk)
      ensures old(Careful()) ==> Careful()
    {
      var fate := Next();
      ok := fate.Works?;
      if ok {
        disk := disk.(base := Some(WithTop(Plain(disk), name)));
      }
      Record();
      if old(Careful()) {
        SoundStays(prims, old(Now()), Now());
      }
    }

    /** Both top directories, one after the other. */
    method MakeTops() returns (ok: bool)
      modifies this`disk, this`turn, this`stopped, this`trace
      ensures disk == old(disk).(base := disk.base) && SameTree(Plain(disk), Plain(old(disk))) && old(trace) <= trace
      ensures ok ==> disk.base == Some(WithTops(Plain(old(disk))))
      ensures old(Careful()) ==> Careful()
      ensures ok <==> old(Works(2))
      ensures ok ==> turn == old(turn) + 2 && !stopped
    {
      ok := MakeDir("profiles");
      if ok {
        ok := MakeDir("files");
        assert {"profiles"} + {"files"} == TOPS;
        assert ok ==> disk.base.value.dirs == Plain(old(disk)).dirs + TOPS;
      }
    }

    /** Create the temporary file and write it; a failure may leave a part. */
    method WriteTmp(data: string) returns (ok: bool)
      modifies this`disk, this`turn, this`stopped, this`trace
      ensures Called(ok) && trace == old(trace) + [Now()]
      ensures disk == old(disk).(tmp := disk.tmp) && (ok ==> disk.tmp == Some(data))
      ensures old(Careful()) ==> Careful()
    {
      var fate := Next();
      ok := fate.Works?;
      if !stopped || fate.Stops? {
        disk := disk.(tmp := Some(if ok then data else data[..|data| / 2]));
      }
      Record();
      if old(Careful()) {
        SoundStays(prims, old(Now()), Now());
      }
    }

    method Chmod() returns (ok: bool)
      modifies this`turn, this`stopped
      ensures Called(ok)
    {
      var fate := Next();
      ok := fate.Works?;
    }

    /** The atomic rename onto the vault file. */
    method ReplaceVault(ghost sealed: Tree, ghost newPass: string) returns (ok: bool)
      requires Ideal(prims) && disk.tmp.Some? && VaultHolds(prims, Disk(None, disk.tmp, None), newPass, sealed)
      modifies this`disk, this`turn, this`stopped, this`pass, this`trace
      ensures Called(ok) && trace == old(trace) + [Now()]
      ensures disk == if ok then old(disk).(vault := old(disk).tmp, tmp := None) else old(disk)
      ensures pass == if ok then newPass else old(pass)
      ensures ok ==> VaultHolds(prims, disk, pass, sealed)
      ensures old(Careful()) && IsStore(sealed) && SameTree(sealed, newest) ==> Careful()
    {
      var fate := Next();
      ok := fate.Works?;
      if ok {
        disk := disk.(vault := disk.tmp, tmp := None);
        pass := newPass;
        assert VaultHolds(prims, disk, pass, sealed);
      }
      Record();
    }

    /** `remove_dir_all`; a failure may leave any part of the tree behind. */
    method RemoveBase() returns (ok: bool)
      modifies this`disk, this`turn, this`stopped, this`trace
      ensures Called(ok) && trace == old(trace) + [Now()]
      ensures disk == old(disk).(base := if ok then None else if old(stopped) then old(disk).base else Some(partial(turn)))
      ensures old(Careful()) && VaultHasNewest(prims, old(Now())) ==> Careful() && VaultHasNewest(prims, Now())
    {
      var fate := Next();
      ok := fate.Works?;
      if ok {
        disk := disk.(base := None);
      } else if !stopped || fate.Stops? {
        disk := disk.(base := Some(partial(turn)));
      }
      Record();
      if old(Careful()) && VaultHasNewest(prims, old(Now())) {
        SoundStays(prims, old(Now()), Now());
        var t :| VaultHolds(prims, old(disk), pass, t) && SameTree(t, newest);
        assert VaultHolds(prims, disk, pass, t);
      }
    }

    /** Unpack entry by entry; a failure may leave any tree at all. */
    method Extract(archive: string) returns (ok: bool)
      modifies this`disk, this`turn, this`stopped, this`trace
      ensures Called(ok || (prims.unpack(archive).None? && !old(stopped) && plan(old(turn)).Works?))
      ensures trace == old(trace) + [Now()] && disk == old(disk).(base := disk.base)
      ensures ok ==> prims.unpack(archive).Some? && disk.base == prims.unpack(archive)
      ensures old(Careful()) && VaultHasNewest(prims, old(Now())) ==> Careful()
    {
      var fate := Next();
      ok := fate.Works? && prims.unpack(archive).Some?;
      if ok {
        disk := disk.(base := prims.unpack(archive));
      } else if !stopped || fate.Stops? {
        disk := disk.(base := Some(partial(turn)));
      }
      Record();
      if old(Careful()) && VaultHasNewest(prims, old(Now())) {
        SoundStays(prims, old(Now()), Now());
      }
    }

    /** Seal the plaintext and put it in the place of the vault. */
    method ReplaceBySealed(passphrase: string, salt: string, nonce: string) returns (result: Result<(), VaultError>)
      requires Ideal(prims) && Fresh(salt, nonce) && disk.base.Some?
      modifies this`disk, this`turn, this`stopped, this`pass, this`trace
      ensures old(Careful() && Open()) ==> Careful()
      ensures disk.base == old(disk).base && old(trace) <= trace
      ensures (disk.vault == old(disk).vault && pass == old(pass))
           || (VaultHolds(prims, disk, pass, disk.base.value) && pass == passphrase)
      ensures result.Ok? ==> VaultHolds(prims, disk, pass, disk.base.value) && pass == passphrase
      ensures result.Ok? <==> prims.derive(passphrase, salt).Some? && old(Works(4))
      ensures result.Ok? ==> turn == old(turn) + 4 && !stopped
      ensures result.Err? ==> result.error == if prims.derive(passphrase, salt).None? then Crypto else Io
    {
      var sealed := EncryptPayload(prims, prims.pack(disk.base.value), passphrase, salt, nonce);
      if sealed.Err? {
        return Err(sealed.error);
      }
      WorkInTwo(plan, turn, 2, 2);
      var ok := FillTmp(sealed.value);
      if !ok {
        return Err(Io);
      }
      SealedHolds(prims, disk.base.value, passphrase, salt, nonce);
      ok := Publish(disk.base.value, passphrase);
      result := if ok then Ok(()) else Err(Io);
    }

    /** The temporary file, and its mode. */
    method FillTmp(data: string) returns (ok: bool)
      modifies this`disk, this`turn, this`stopped, this`trace
      ensures disk == old(disk).(tmp := disk.tmp) && (ok ==> disk.tmp == Some(data)) && old(trace) <= trace
      ensures old(Careful()) ==> Careful()
      ensures ok <==> old(Works(2))
      ensures ok ==> turn == old(turn) + 2 && !stopped
    {
      OneWorks(plan, turn);
      OneWorks(plan, turn + 1);
      WorkInTwo(plan, turn, 1, 1);
      ok := WriteTmp(data);
      if ok {
        ok := Chmod();
      }
    }

    /** The rename onto the vault file, and its mode. */
    method Publish(ghost sealed: Tree, ghost newPass: string) returns (ok: bool)
      requires Ideal(prims) && disk.tmp.Some? && VaultHolds(prims, Disk(None, disk.tmp, None), newPass, sealed)
      modifies this`disk, this`turn, this`stopped, this`pass, this`trace
      ensures disk.base == old(disk).base && old(trace) <= trace
      ensures (disk.vault == old(disk).vault && pass == old(pass)) || (VaultHolds(prims, disk, pass, sealed) && pass == newPass)
      ensures ok ==> VaultHolds(prims, disk, pass, sealed) && pass == newPass
      ensures old(Careful()) && IsStore(sealed) && SameTree(sealed, newest) ==> Careful()
      ensures ok <==> old(Works(2))
      ensures ok ==> turn == old(turn) + 2 && !stopped
    {
      OneWorks(plan, turn);
      OneWorks(plan, turn + 1);
      WorkInTwo(plan, turn, 1, 1);
      ok := ReplaceVault(sealed, newPass);
      if ok {
        ok := Chmod();
      }
    }

    /** Remove the plaintext that was sealed. */
    method RemovePlain(ghost sealed: Tree) returns (ok: bool)
      requires Ideal(prims) && VaultHolds(prims, disk, pass, sealed)
      modifies this`disk, this`turn, this`stopped, this`trace
      ensures Called(ok) && trace == old(trace) + [Now()]
      ensures disk == old(disk).(base := if ok then None else if old(stopped) then old(disk).base else Some(partial(turn)))
      ensures VaultHolds(prims, disk, pass, sealed) && (VaultHasNewest(prims, Now()) <==> SameTree(sealed, newest))
      ensures old(Careful()) && SameTree(sealed, newest) ==> Careful()
    {
      ghost var before := Now();
      HoldsOne(prims, before, sealed);
      ok := RemoveBase();
      SameVault(prims, before, Now(), sealed);
      HoldsOne(prims, Now(), sealed);
    }

    method SealAndRemove(passphrase: string, salt: string, nonce: string) returns (result: Result<(), VaultError>)
      requires Ideal(prims) && Fresh(salt, nonce) && disk.base.Some?
      modifies this`disk, this`turn, this`stopped, this`pass, this`trace
      ensures old(Careful() && Open()) ==> Careful()
      ensures old(trace) <= trace
      ensures result.Ok? ==> disk.base == None && pass == passphrase && VaultHolds(prims, disk, pass, old(disk).base.value)
      ensures result.Ok? ==> (VaultHasNewest(prims, Now()) <==> SameTree(old(disk).base.value, newest))
      ensures (disk.base == old(disk).base && disk.vault == old(disk).vault && pass == old(pass))
           || (VaultHolds(prims, disk, pass, old(disk).base.value) && pass == passphrase)
      ensures result.Ok? <==> prims.derive(passphrase, salt).Some? && old(Works(5))
      ensures result.Err? ==> result.error == if prims.derive(passphrase, salt).None? then Crypto else Io
      ensures prims.derive(passphrase, salt).Some? && old(Works(4)) ==>
                && turn == old(turn) + 5 && stopped == plan(old(turn) + 4).Stops?
                && VaultHolds(prims, disk, pass, old(disk).base.value) && pass == passphrase
                && result == (if plan(old(turn) + 4).Works? then Ok(()) else Err(Io))
                && disk.base == (if result.Ok? then None else Some(partial(turn)))
    {
      ghost var tree := disk.base.value;
      WorkInTwo(plan, turn, 4, 1);
      OneWorks(plan, turn + 4);
      result := ReplaceBySealed(passphrase, salt, nonce);
      if result.Ok? {
        var ok := RemovePlain(tree);
        result := if ok then Ok(()) else Err(Io);
      }
    }

    /** Close: seal the plaintext, whatever it is, replace the vault, remove the
    plaintext. After success the vault has the newest tree exactly when the
    plaintext was the newest tree. */
    method FsEncrypt(passphrase: string, salt: string, nonce: string) returns (result: Result<(), VaultError>)
      requires Ideal(prims) && Fresh(salt, nonce)
      modifies this`disk, this`turn, this`stopped, this`pass, this`trace
      ensures old(Careful() && Open()) ==> Careful()
      ensures old(trace) <= trace
      // Exactly when it succeeds; a blank passphrase or a missing directory is refused
      // before anything is touched.
      ensures result.Ok? <==>
                Trim(passphrase) != [] && old(disk).base.Some? && prims.derive(passphrase, salt).Some? && old(Works(7))
      ensures result == Err(Format) <==> Trim(passphrase) == [] || old(disk).base.None?
      ensures result == Err(Format) ==> disk == old(disk) && pass == old(pass) && turn == old(turn) && trace == old(trace)
      ensures result == Err(Crypto) <==>
                Trim(passphrase) != [] && old(disk).base.Some? && prims.derive(passphrase, salt).None? && old(Works(2))
      ensures result.Ok? ==> disk.base == None && pass == passphrase
      ensures result.Ok? ==> VaultHolds(prims, disk, pass, WithTops(Plain(old(disk))))
      ensures result.Ok? ==> (VaultHasNewest(prims, Now()) <==> SameTree(Plain(old(disk)), newest))
      // Until the vault is replaced, plaintext and vault are left alone.
      ensures (SameTree(Plain(disk), Plain(old(disk))) && disk.vault == old(disk).vault && pass == old(pass))
           || (VaultHolds(prims, disk, pass, WithTops(Plain(old(disk)))) && pass == passphrase)
      // Nothing but a failing call makes it fail; a removal that fails leaves a part.
      ensures old(disk).base.Some? && Trim(passphrase) != [] && prims.derive(passphrase, salt).Some? && old(Works(6)) ==>
                && turn == old(turn) + 7 && stopped == plan(old(turn) + 6).Stops?
                && VaultHolds(prims, disk, pass, WithTops(Plain(old(disk)))) && pass == passphrase
                && result == (if plan(old(turn) + 6).Works? then Ok(()) else Err(Io))
                && disk.base == (if result.Ok? then None else Some(partial(turn)))
    {
      if Trim(passphrase) == [] {
        return Err(Format);
      }
      if disk.base.None? {
        return Err(Format);
      }
      var ok := MakeTops();
      if !ok {
        return Err(Io);
      }
      result := SealAndRemove(passphrase, salt, nonce);
    }

    /** Open: nothing to do without a vault; refuse next to plaintext data; else
    restore exactly the tree last sealed. The vault file is never changed. */
    method FsDecrypt(passphrase: string) returns (result: Result<(), VaultError>)
      requires Ideal(prims)
      modifies this`disk, this`turn, this`stopped, this`trace
      ensures disk.vault == old(disk).vault && old(trace) <= trace
      ensures old(Careful()) ==> Careful() && (result.Ok? ==> Open())
      ensures forall t, any :: result.Ok? && VaultHolds(prims, old(disk), any, t) ==> disk.base == Some(t)
      // Exactly when it succeeds; what it refuses it leaves alone.
      ensures result.Ok? <==> Trim(passphrase) != [] && old(Works(2)) && (old(disk).vault.None? || Opens(prims, old(disk), passphrase))
      ensures result.Ok? ==> disk.base.Some? && "profiles" in disk.base.value.dirs && "files" in disk.base.value.dirs
      ensures Trim(passphrase) == [] ==> result == Err(Format) && disk == old(disk)
      ensures Trim(passphrase) != [] && old(disk).vault.Some? && !HasEntries(Plain(old(disk)))
              && DecryptPayload(prims, old(disk).vault.value, passphrase).Err? ==>
                result == Err(DecryptPayload(prims, old(disk).vault.value, passphrase).error) && disk == old(disk)
      ensures result.Ok? && old(disk).vault.None? ==> disk.base == Some(WithTops(Plain(old(disk))))
      ensures old(disk).vault.Some? && HasEntries(Plain(old(disk))) ==> result == Err(Format) && disk == old(disk)
      ensures old(Works(2)) && Trim(passphrase) != [] && old(CanOpen(passphrase)) ==>
                result.Ok? && turn == old(turn) + 2 && !stopped
    {
      if Trim(passphrase) == [] {
        return Err(Format);
      }
      if disk.vault.None? {
        var made := MakeTops();
        result := if made then Ok(()) else Err(Io);
        return;
      }
      if HasEntries(Plain(disk)) {
        return Err(Format);
      }
      var archive := DecryptPayload(prims, disk.vault.value, passphrase);
      if archive.Err? {
        return Err(archive.error);
      }
      forall t, any | VaultHolds(prims, disk, any, t) ensures prims.unpack(archive.value) == Some(t) {
        assert archive.value == prims.pack(t);
      }
      result := Restore(archive.value);
    }

    /** Drop what is there, unpack, and look for the two top directories. */
    method Restore(archive: string) returns (result: Result<(), VaultError>)
      modifies this`disk, this`turn, this`stopped, this`trace
      ensures disk.vault == old(disk).vault && old(trace) <= trace
      ensures old(Careful()) && VaultHasNewest(prims, old(Now())) ==> Careful()
      ensures result.Ok? <==> old(Works(2)) && prims.unpack(archive).Some? && IsStore(prims.unpack(archive).value)
      ensures result.Ok? ==> disk.base == prims.unpack(archive) && turn == old(turn) + 2 && !stopped
    {
      var ok := RemoveBase();
      if !ok {
        return Err(Io);
      }
      ok := Extract(archive);
      if !ok {
        return Err(Io);
      }
      result := if IsStore(Plain(disk)) then Ok(()) else Err(Format);
    }

    /** There is no vault, or it opens with this passphrase and nothing is in
    the way. */
    ghost predicate CanOpen(passphrase: string)
      reads this`disk
    {
      disk.vault.None? || (!HasEntries(Plain(disk)) && exists t :: IsStore(t) && VaultHolds(prims, disk, passphrase, t))
    }
  }

  lemma EditedIsSound(p: Primitives, a: Snapshot, b: Snapshot)
    requires Sound(p, a) && a.disk.vault == b.disk.vault && a.pass == b.pass
    requires b == a || (b.disk.base == Some(b.newest) && IsStore(b.newest))
    ensures Sound(p, b)
  {
    forall t | VaultHolds(p, a.disk, a.pass, t) ensures VaultHolds(p, b.disk, b.pass, t) {}
    if b.disk.vault.Some? && b != a {
      var t :| IsStore(t) && VaultHolds(p, a.disk, a.pass, t);
      assert VaultHolds(p, b.disk, b.pass, t);
      assert "profiles" in b.newest.dirs;
    }
  }

  // ---------- closing over the wrong plaintext ----------

  /** A sealed tree is all that a vault can give back: under some passphrase it
  has the newest tree if and only if that is the tree that was sealed. */
  lemma SealingAnotherTreeLoses(p: Primitives, disk: Disk, pass: string, sealed: Tree, newest: Tree)
    requires Ideal(p) && VaultHolds(p, disk, pass, sealed)
    ensures (exists any :: VaultHasNewest(p, Snapshot(disk, newest, any))) <==> SameTree(sealed, newest)
  {
    HoldsOne(p, Snapshot(disk, newest, pass), sealed);
    if any :| VaultHasNewest(p, Snapshot(disk, newest, any)) {
      var t :| VaultHolds(p, disk, any, t) && SameTree(t, newest);
      assert p.pack(t) == p.pack(sealed);
      assert p.unpack(p.pack(sealed)) == Some(sealed) && p.unpack(p.pack(t)) == Some(t);
    }
  }

  /** The run that loses data: the first close seals the tree but cannot remove
  all of the plaintext, and the second, over what was left, seals that. */
  method CloseTwice(prims: Primitives, tree: Tree, left: Tree, pass: string, salt: string, nonce: string, salt': string, nonce': string)
    returns (first: Result<(), VaultError>, second: Result<(), VaultError>, store: VaultStore)
    requires Ideal(prims) && Fresh(salt, nonce) && Fresh(salt', nonce')
    requires Trim(pass) != [] && prims.derive(pass, salt).Some? && prims.derive(pass, salt').Some?
    requires !SameTree(left, tree)
    ensures first == Err(Io) && second == Ok(())
    ensures store.newest == tree && store.prims == prims && store.disk.base == None
    ensures forall any :: !VaultHasNewest(prims, Snapshot(store.disk, tree, any))
  {
    store := new VaultStore(prims, k => if k == 6 then Fails else Fate.Works, _ => left, Some(tree), None);
    first := store.FsEncrypt(pass, salt, nonce);
    assert VaultHolds(prims, store.disk, pass, WithTops(tree)) && store.disk.base == Some(left);
    second := store.FsEncrypt(pass, salt', nonce');
    SealingAnotherTreeLoses(prims, store.disk, pass, WithTops(left), tree);
  }

  // ---------- whole runs ----------

  /** Open with a passphrase, edit, and perhaps close with another. */
  datatype Session = Session(openWith: string, edits: seq<Tree>, closes: bool, closeWith: string, salt: string, nonce: string)

  /** What came of a session: whether it opened, which edits were written, whether
  it closed. */
  datatype Outcome = Outcome(entered: bool, edited: seq<bool>, closed: bool)

  function Written(newest: Tree, edits: seq<Tree>, edited: seq<bool>): Tree
    requires |edited| <= |edits|
  {
    if edited == [] then newest
    else if edited[|edited| - 1] then edits[|edited| - 1]
    else Written(newest, edits, edited[..|edited| - 1])
  }

  predicate Fits(session: Session, outcome: Outcome) {
    && |outcome.edited| == (if outcome.entered then |session.edits| else 0)
    && (outcome.closed ==> outcome.entered && session.closes)
  }

  /** The newest tree after a run: the last edit that was written. */
  function NewestAfter(newest: Tree, sessions: seq<Session>, outcomes: seq<Outcome>): Tree
    requires |outcomes| <= |sessions| && forall i :: 0 <= i < |outcomes| ==> Fits(sessions[i], outcomes[i])
  {
    if outcomes == [] then newest
    else
      var k := |outcomes| - 1;
      assert Fits(sessions[k], outcomes[k]);
      Written(NewestAfter(newest, sessions, outcomes[..k]), sessions[k].edits, outcomes[k].edited)
  }

  /** The session opened, wrote every edit and closed. */
  ghost predicate AllDone(session: Session, outcome: Outcome) {
    outcome.entered && outcome.closed && |outcome.edited| == |session.edits| && AllTrue(outcome.edited)
  }

  ghost predicate EveryDone(sessions: seq<Session>, outcomes: seq<Outcome>) {
    |outcomes| <= |sessions| && forall i :: 0 <= i < |outcomes| ==> AllDone(sessions[i], outcomes[i])
  }

  lemma AddDone(sessions: seq<Session>, outcomes: seq<Outcome>, outcome: Outcome)
    requires EveryDone(sessions, outcomes) && |outcomes| < |sessions| && AllDone(sessions[|outcomes|], outcome)
    ensures EveryDone(sessions, outcomes + [outcome])
  {
  }

  ghost predicate AllTrue(flags: seq<bool>) {
    forall i :: 0 <= i < |flags| ==> flags[i]
  }

  /** The session closes, with passphrases that can be used. */
  ghost predicate Closing(p: Primitives, session: Session) {
    && session.closes && Trim(session.openWith) != [] && Trim(session.closeWith) != []
    && p.derive(session.closeWith, session.salt).Some?
  }

  /** Each session closes, and with the passphrase that the next one opens with. */
  ghost predicate Chained(p: Primitives, sessions: seq<Session>) {
    && (forall i :: 0 <= i < |sessions| ==> Closing(p, sessions[i]))
    && (forall i :: 0 < i < |sessions| ==> sessions[i].openWith == sessions[i - 1].closeWith)
  }

  /** What a closed session leaves. */
  ghost predicate ClosedWith(store: VaultStore, pass: string)
    reads store
  {
    store.disk.base == None && store.pass == pass && VaultHasNewest(store.prims, store.Now())
  }

  ghost predicate WellFormed(session: Session) {
    Fresh(session.salt, session.nonce) && forall i :: 0 <= i < |session.edits| ==> IsStore(session.edits[i])
  }

  method WriteEdits(store: VaultStore, edits: seq<Tree>) returns (edited: seq<bool>)
    requires store.Careful() && store.Open() && forall i :: 0 <= i < |edits| ==> IsStore(edits[i])
    modifies store`disk, store`turn, store`stopped, store`newest, store`trace
    ensures store.Careful() && store.Open() && old(store.trace) <= store.trace
    ensures |edited| == |edits| && store.newest == Written(old(store.newest), edits, edited)
    ensures store.disk.vault == old(store.disk).vault
    ensures old(store.NothingFails()) ==> store.NothingFails() && AllTrue(edited)
  {
    edited := [];
    for j := 0 to |edits|
      invariant store.Careful() && store.Open() && old(store.trace) <= store.trace
      invariant |edited| == j && store.newest == Written(old(store.newest), edits, edited)
      invariant store.disk.vault == old(store.disk).vault
      invariant old(store.NothingFails()) ==> store.NothingFails() && AllTrue(edited)
    {
      var ok := store.Edit(edits[j]);
      assert (edited + [ok])[..j] == edited;
      edited := edited + [ok];
    }
  }

  /** A new process: open, and when that works write the edits, and close. */
  method RunSession(store: VaultStore, session: Session) returns (outcome: Outcome)
    requires Ideal(store.prims) && store.Careful() && WellFormed(session)
    modifies store`disk, store`turn, store`stopped, store`newest, store`pass, store`trace
    ensures store.Careful() && old(store.trace) <= store.trace
    ensures Fits(session, outcome) && store.newest == Written(old(store.newest), session.edits, outcome.edited)
    ensures outcome.closed ==> ClosedWith(store, session.closeWith)
    ensures old(store.NothingFails()) && old(store.CanOpen(session.openWith)) && Closing(store.prims, session) ==>
              AllDone(session, outcome) && store.NothingFails() && store.CanOpen(session.closeWith)
  {
    store.Restart();
    var entered := store.FsDecrypt(session.openWith);
    if entered.Err? {
      return Outcome(false, [], false);
    }
    var edited := WriteEdits(store, session.edits);
    outcome := Outcome(true, edited, false);
    if session.closes {
      var closed := CloseSession(store, session);
      outcome := outcome.(closed := closed);
    }
  }

  method CloseSession(store: VaultStore, session: Session) returns (closed: bool)
    requires Ideal(store.prims) && store.Careful() && store.Open() && WellFormed(session)
    modifies store`disk, store`turn, store`stopped, store`pass, store`trace
    ensures store.Careful() && old(store.trace) <= store.trace
    ensures closed ==> ClosedWith(store, session.closeWith)
    ensures old(store.NothingFails()) && Closing(store.prims, session) ==>
              closed && store.NothingFails() && store.CanOpen(session.closeWith)
  {
    ghost var tree := store.disk.base.value;
    var result := store.FsEncrypt(session.closeWith, session.salt, session.nonce);
    closed := result.Ok?;
    assert IsStore(WithTops(tree));
  }

  /** One session of a chain. */
  method NextSession(store: VaultStore, sessions: seq<Session>, i: nat) returns (outcome: Outcome)
    requires Ideal(store.prims) && store.Careful() && i < |sessions| && WellFormed(sessions[i])
    modifies store`disk, store`turn, store`stopped, store`newest, store`pass, store`trace
    ensures store.Careful() && old(store.trace) <= store.trace
    ensures Fits(sessions[i], outcome) && store.newest == Written(old(store.newest), sessions[i].edits, outcome.edited)
    ensures outcome.closed ==> ClosedWith(store, sessions[i].closeWith)
    ensures Chained(store.prims, sessions) && old(Smooth(store, sessions, i)) ==> AllDone(sessions[i], outcome) && Smooth(store, sessions, i + 1)
  {
    outcome := RunSession(store, sessions[i]);
  }

  /** Any run of sessions in which closing follows a successful opening, whatever
  fails and wherever each session stops: the newest tree, the last that was
  written, is never lost. When nothing fails and each session opens with the
  passphrase of the last, every session opens, writes and closes. */
  method RunSessions(store: VaultStore, sessions: seq<Session>) returns (outcomes: seq<Outcome>)
    requires Ideal(store.prims) && store.Careful()
    requires forall i :: 0 <= i < |sessions| ==> WellFormed(sessions[i])
    modifies store`disk, store`turn, store`stopped, store`newest, store`pass, store`trace
    ensures old(store.trace) <= store.trace && AlwaysSafe(store)
    ensures |outcomes| == |sessions| && Ran(old(store.newest), sessions, outcomes, store.newest)
    ensures sessions != [] && outcomes[|sessions| - 1].closed ==> ClosedWith(store, sessions[|sessions| - 1].closeWith)
    ensures Chained(store.prims, sessions) && old(Smooth(store, sessions, 0)) ==> EveryDone(sessions, outcomes)
  {
    outcomes := [];
    ghost var smooth := Chained(store.prims, sessions) && Smooth(store, sessions, 0);
    for i := 0 to |sessions|
      invariant store.Careful() && old(store.trace) <= store.trace
      invariant |outcomes| == i && Ran(old(store.newest), sessions, outcomes, store.newest)
      invariant i > 0 && outcomes[i - 1].closed ==> ClosedWith(store, sessions[i - 1].closeWith)
      invariant smooth ==> Smooth(store, sessions, i)
      invariant smooth ==> EveryDone(sessions, outcomes)
    {
      ghost var before := store.newest;
      var outcome := NextSession(store, sessions, i);
      AddOutcome(old(store.newest), sessions, outcomes, outcome, before);
      if smooth {
        AddDone(sessions, outcomes, outcome);
      }
      outcomes := outcomes + [outcome];
    }
    CarefulIsSafe(store);
  }

  /** The newest tree is, and was at every step, in the plaintext or the vault. */
  ghost predicate AlwaysSafe(store: VaultStore)
    reads store
  {
    Safe(store.prims, store.Now()) && forall i :: 0 <= i < |store.trace| ==> Safe(store.prims, store.trace[i])
  }

  lemma CarefulIsSafe(store: VaultStore)
    requires store.Careful()
    ensures AlwaysSafe(store)
  {
    forall i | 0 <= i < |store.trace| ensures Safe(store.prims, store.trace[i]) {
      assert Sound(store.prims, store.trace[i]);
    }
  }

  /** The outcomes are those of sessions in this order, and the newest tree is
  the last that was written. */
  ghost predicate Ran(newest: Tree, sessions: seq<Session>, outcomes: seq<Outcome>, end: Tree) {
    && |outcomes| <= |sessions|
    && (forall i :: 0 <= i < |outcomes| ==> Fits(sessions[i], outcomes[i]))
    && end == NewestAfter(newest, sessions, outcomes)
  }

  lemma AddOutcome(newest: Tree, sessions: seq<Session>, outcomes: seq<Outcome>, outcome: Outcome, before: Tree)
    requires Ran(newest, sessions, outcomes, before) && |outcomes| < |sessions| && Fits(sessions[|outcomes|], outcome)
    ensures Ran(newest, sessions, outcomes + [outcome], Written(before, sessions[|outcomes|].edits, outcome.edited))
  {
    assert (outcomes + [outcome])[..|outcomes|] == outcomes;
  }

  /** Nothing is in the way of the sessions from number `i` on. */
  ghost predicate Smooth(store: VaultStore, sessions: seq<Session>, i: nat)
    reads store
  {
    store.NothingFails() && (i < |sessions| ==> store.CanOpen(sessions[i].openWith))
  }
}
