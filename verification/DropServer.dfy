/** One drop handling requests one at a time: the octets of a connection in, the
reply out, and the stored blobs between them.

`mono` is the monotonic clock of the rate limit, `wall` the clock of file ages;
a connection that ends early or times out reads as the octets that did arrive. */
module DropServer {
  import opened Wrappers
  import opened Octets
  import opened Text
  import opened Hex
  import opened RateLimiter
  import opened ProofOfWork
  import opened BlobStore

  const MAX_LINE: nat := 512

  datatype Entry = Entry(data: string, modified: nat)

  /** Blobs by the digest of their key, and the times of recent admissions. */
  datatype Drop = Drop(files: map<string, Entry>, times: seq<int>)

  // ---------- requests ----------

  datatype Request =
    | Silent                                          // nothing to answer
    | Refused
    | PutHead(key: string, size: nat, counter: nat)
    | Get(key: string)

  /** `read_line`: up to and with the first newline, and what follows. */
  function FirstLine(input: string): (string, string) {
    var i := IndexOf(input, '\n');
    if i == |input| then (input, []) else (input[..i + 1], input[i + 1..])
  }

  function ParseRequest(line: string): Request {
    if |line| > MAX_LINE then Refused
    else
      var words := Words(Trim(line));
      if words == [] then Silent
      else if words[0] == "PUT" && |words| >= 4 then ParsePut(words[1], words[2], words[3])
      else if words[0] == "GET" && |words| >= 2 then (if IsValidKey(words[1]) then Get(words[1]) else Refused)
      else Refused
  }

  function ParsePut(key: string, size: string, counter: string): Request {
    if !IsValidKey(key) then Refused
    else if ParseUint(size, U64_MAX).None? || ParseUint(counter, U64_MAX).None? then Refused
    else if ParseUint(size, U64_MAX).value > MAX_BLOB then Refused
    else PutHead(key, ParseUint(size, U64_MAX).value, ParseUint(counter, U64_MAX).value)
  }

  // ---------- answers ----------

  function Handle(w: World, drop: Drop, input: string, mono: int, wall: nat): (Drop, string) {
    var (line, body) := FirstLine(input);
    match ParseRequest(line)
    case Silent => (drop, "")
    case Refused => (drop, "ERR\n")
    case PutHead(key, size, counter) => HandlePut(w, drop, key, size, counter, body, mono, wall)
    case Get(key) => HandleGet(w, drop, key, wall)
  }

  /** The rate limit is charged before the blob is read and its work checked. */
  function HandlePut(w: World, drop: Drop, key: string, size: nat, counter: nat, body: string, mono: int, wall: nat):
    (Drop, string)
  {
    var charged := drop.(times := AfterCall(drop.times, mono));
    if !Admits(drop.times, mono) then (charged, "ERR\n")
    else if |body| < size then (charged, "")
    else if !VerifyPutPow(w.hash, key, size, body[..size], counter) then (charged, "ERR\n")
    else if w.digest(key) in drop.files then (charged, "EXISTS\n")
    else (charged.(files := drop.files[w.digest(key) := Entry(body[..size], wall)]), "OK\n")
  }

  function HandleGet(w: World, drop: Drop, key: string, wall: nat): (Drop, string) {
    var name := w.digest(key);
    if name !in drop.files then (drop, "MISS\n")
    else if IsOlderThanTtl(wall, drop.files[name].modified) then (drop.(files := drop.files - {name}), "MISS\n")
    else (drop, GetReply(drop.files[name].data))
  }

  function GetReply(data: string): string {
    "OK " + Dec(|data|) + ['\n'] + data
  }

  /** The collector removes exactly the expired files. */
  function Sweep(files: map<string, Entry>, wall: nat): map<string, Entry> {
    map name | name in files && !IsOlderThanTtl(wall, files[name].modified) :: files[name]
  }

  // ---------- what the server keeps ----------

  ghost predicate Holds(drop: Drop, name: string, entry: Entry) {
    name in drop.files && drop.files[name] == entry
  }

  datatype Event = Connection(input: string, mono: int, wall: nat) | Collection(wall: nat)

  function Serve(w: World, drop: Drop, event: Event): Drop {
    match event
    case Connection(input, mono, wall) => Handle(w, drop, input, mono, wall).0
    case Collection(wall) => drop.(files := Sweep(drop.files, wall))
  }

  /** Write-once: whatever a connection sends, a stored blob that has not expired
  stays as it is. */
  lemma ServeKeeps(w: World, drop: Drop, event: Event, name: string, entry: Entry)
    requires Holds(drop, name, entry) && !IsOlderThanTtl(event.wall, entry.modified)
    ensures Holds(Serve(w, drop, event), name, entry)
  {
  }

  /** A blob request removes nothing, expired or not. */
  lemma PutKeeps(w: World, drop: Drop, input: string, mono: int, wall: nat, name: string, entry: Entry)
    requires Holds(drop, name, entry) && ParseRequest(FirstLine(input).0).PutHead?
    ensures Holds(Handle(w, drop, input, mono, wall).0, name, entry)
  {
  }

  /** No stored blob is above the size limit. */
  ghost predicate Small(drop: Drop) {
    forall name :: name in drop.files ==> |drop.files[name].data| <= MAX_BLOB
  }

  /** Whatever a connection sends, nothing above the limit gets stored. */
  lemma ServeKeepsSmall(w: World, drop: Drop, event: Event)
    requires Small(drop)
    ensures Small(Serve(w, drop, event))
  {
  }

  // ---------- what the answers mean ----------

  /** Which lines are which command: the line is short enough, the words are those of
  the command or more, the key is one, the numbers are, and the size is within the
  limit; a line without words gets no answer, any other ERR. */
  lemma ParsesIff(line: string)
    ensures var words := Words(Trim(line));
            && (ParseRequest(line).PutHead? <==>
                  && |line| <= 512 && |words| >= 4 && words[0] == "PUT" && IsValidKey(words[1])
                  && ParseUint(words[2], MAX_BLOB).Some? && ParseUint(words[3], U64_MAX).Some?)
            && (ParseRequest(line).PutHead? ==>
                  ParseRequest(line) == PutHead(words[1], ParseUint(words[2], MAX_BLOB).value, ParseUint(words[3], U64_MAX).value))
            && (ParseRequest(line).Get? <==> |line| <= 512 && |words| >= 2 && words[0] == "GET" && IsValidKey(words[1]))
            && (ParseRequest(line).Get? ==> ParseRequest(line).key == words[1])
            && (ParseRequest(line) == Silent <==> |line| <= 512 && words == [])
  {
    assert "PUT"[0] != "GET"[0];
  }

  /** The blob of the command is there in full, within the limits, and its work passes. */
  ghost predicate Passes(w: World, drop: Drop, key: string, size: nat, counter: nat, body: string, mono: int) {
    Admits(drop.times, mono) && |body| >= size && VerifyPutPow(w.hash, key, size, body[..size], counter)
  }

  /** Every answer, to whatever octets. OK: nothing was stored under the key, and the
  blob is now. EXISTS: something was. MISS: nothing is there any more. Data: what is
  stored, in time. ERR or silence: no file has changed. */
  lemma AnswersMean(w: World, drop: Drop, input: string, mono: int, wall: nat)
    ensures var (line, body) := FirstLine(input);
            var (after, reply) := Handle(w, drop, input, mono, wall);
            match ParseRequest(line)
            case PutHead(key, size, counter) =>
              var name := w.digest(key);
              && reply in {"OK\n", "EXISTS\n", "ERR\n", ""}
              && (reply == "OK\n" <==> Passes(w, drop, key, size, counter, body, mono) && name !in drop.files)
              && (reply == "EXISTS\n" <==> Passes(w, drop, key, size, counter, body, mono) && name in drop.files)
              && (reply == "" <==> Admits(drop.times, mono) && |body| < size)
              && after.files == if reply == "OK\n" then drop.files[name := Entry(body[..size], wall)] else drop.files
            case Get(key) =>
              var name := w.digest(key);
              && after.times == drop.times
              && if name in drop.files && !IsOlderThanTtl(wall, drop.files[name].modified) then
                   reply == GetReply(drop.files[name].data) && after.files == drop.files
                 else reply == "MISS\n" && after.files == drop.files - {name}
            case Silent => reply == "" && after == drop
            case Refused => reply == "ERR\n" && after == drop
  {
    assert "OK\n"[0] == 'O' && "EXISTS\n"[1] == 'X' && "ERR\n"[1] == 'R';
    if ParseRequest(FirstLine(input).0).Get? {
      NothingToRemove(drop.files, w.digest(ParseRequest(FirstLine(input).0).key));
    }
  }

  lemma NothingToRemove(files: map<string, Entry>, name: string)
    ensures name !in files ==> files - {name} == files
  {
  }

  /** The keys of the program, hexadecimal digests, are keys. */
  lemma HexIsKey(digest: string)
    requires 0 < |digest| <= 64
    ensures IsValidKey(HexEncode(digest))
  {
    HexLength(digest);
  }

  // ---------- the requests of an honest client ----------

  function PutRequest(key: string, blob: string, counter: nat): string {
    PutLine(key, |blob|, counter) + ['\n'] + blob
  }

  function PutLine(key: string, size: nat, counter: nat): string {
    "PUT" + ([' '] + (key + ([' '] + (Dec(size) + ([' '] + Dec(counter))))))
  }

  function GetLine(key: string): string {
    "GET" + ([' '] + key)
  }

  function GetRequest(key: string): string {
    GetLine(key) + ['\n']
  }

  function Pow10(n: nat): nat {
    if n == 0 then 1 else 10 * Pow10(n - 1)
  }

  lemma {:induction false} DecLength(n: nat, k: nat)
    requires n < Pow10(k) && k > 0
    ensures |Dec(n)| <= k
  {
    if n >= 10 {
      DecLength(n / 10, k - 1);
    }
  }

  lemma U64Digits(n: nat)
    requires n <= U64_MAX
    ensures |Dec(n)| <= 20
  {
    assert Pow10(4) == 10000;
    assert Pow10(8) == 10000 * Pow10(4);
    assert Pow10(12) == 10000 * Pow10(8);
    assert Pow10(16) == 10000 * Pow10(12);
    assert Pow10(20) == 10000 * Pow10(16);
    DecLength(n, 20);
  }

  lemma TwoWords(first: string, rest: string)
    requires first != [] && NoSpace(first)
    ensures Words(first + ([' '] + rest)) == [first] + Words(rest)
  {
    WordsCons(first, [' '] + rest);
    assert ([' '] + rest)[1..] == rest;
  }

  lemma OneWord(word: string)
    requires word != [] && NoSpace(word)
    ensures Words(word) == [word]
  {
    WordsCons(word, []);
    assert word + [] == word;
  }

  lemma PutLineWords(key: string, size: nat, counter: nat)
    requires IsValidKey(key)
    ensures Words(PutLine(key, size, counter)) == ["PUT", key, Dec(size), Dec(counter)]
  {
    ValidKeyPlain(key);
    DecPlain(size);
    DecPlain(counter);
    OneWord(Dec(counter));
    TwoWords(Dec(size), Dec(counter));
    TwoWords(key, Dec(size) + ([' '] + Dec(counter)));
    assert NoSpace("PUT");
    TwoWords("PUT", key + ([' '] + (Dec(size) + ([' '] + Dec(counter)))));
  }

  lemma GetLineWords(key: string)
    requires IsValidKey(key)
    ensures Words(GetLine(key)) == ["GET", key]
  {
    ValidKeyPlain(key);
    OneWord(key);
    assert NoSpace("GET");
    TwoWords("GET", key);
  }

  /** A line whose ends are not white space, with its newline, trims to itself. */
  lemma TrimLine(line: string)
    requires line != [] && !IsSpace(line[0]) && !IsSpace(line[|line| - 1])
    ensures Trim(line + ['\n']) == line
  {
    var whole := line + ['\n'];
    assert whole[0] == line[0] && whole[|line|] == '\n' && whole[..|line|] == line;
    assert TrimStart(whole) == whole;
    assert TrimEnd(whole) == TrimEnd(line) == line;
  }

  lemma FirstLineOf(line: string, rest: string)
    requires '\n' !in line
    ensures FirstLine(line + ['\n'] + rest) == (line + ['\n'], rest)
  {
    IndexOfAfter(line, '\n', rest);
    var input := line + ['\n'] + rest;
    assert input[..|line| + 1] == line + ['\n'];
    assert input[|line| + 1..] == rest;
  }

  lemma PutLinePlain(key: string, size: nat, counter: nat)
    requires IsValidKey(key) && size <= U64_MAX && counter <= U64_MAX
    ensures var line := PutLine(key, size, counter);
            '\n' !in line && |line| < MAX_LINE && line[0] == 'P' && !IsSpace(line[|line| - 1])
  {
    ValidKeyPlain(key);
    DecPlain(size);
    DecPlain(counter);
    U64Digits(size);
    U64Digits(counter);
    var line := PutLine(key, size, counter);
    assert line[|line| - 1] == Dec(counter)[|Dec(counter)| - 1];
  }

  /** What the client writes for a put is, for the server, the same key, size,
  counter and blob, or refused when the blob is above the limit. */
  lemma PutRequestParses(key: string, blob: string, counter: nat)
    requires IsValidKey(key) && |blob| <= U64_MAX && counter <= U64_MAX
    ensures var (line, body) := FirstLine(PutRequest(key, blob, counter));
            ParseRequest(line) == (if |blob| <= MAX_BLOB then PutHead(key, |blob|, counter) else Refused) && body == blob
  {
    var line := PutLine(key, |blob|, counter);
    PutLinePlain(key, |blob|, counter);
    FirstLineOf(line, blob);
    TrimLine(line);
    PutLineWords(key, |blob|, counter);
    ParsesPut(key, |blob|, counter);
  }

  lemma ParsesPut(key: string, size: nat, counter: nat)
    requires IsValidKey(key) && size <= U64_MAX && counter <= U64_MAX
    ensures ParsePut(key, Dec(size), Dec(counter)) == if size <= MAX_BLOB then PutHead(key, size, counter) else Refused
  {
    ParseDec(size, U64_MAX);
    ParseDec(counter, U64_MAX);
  }

  lemma GetRequestParses(key: string)
    requires IsValidKey(key)
    ensures ParseRequest(FirstLine(GetRequest(key)).0) == Get(key)
  {
    var line := GetLine(key);
    ValidKeyPlain(key);
    assert line[0] == 'G' && line[|line| - 1] == key[|key| - 1];
    assert '\n' !in line;
    FirstLineOf(line, []);
    assert line + ['\n'] + [] == line + ['\n'];
    TrimLine(line);
    GetLineWords(key);
  }

  // ---------- the replies, as the client reads them ----------

  datatype PutStatus = PutOk | PutExists | PutFail

  /** The status of one put: a reply is its first line, trimmed. */
  function ReadPutReply(reply: string): PutStatus {
    var answer := Trim(FirstLine(reply).0);
    if reply == [] then PutFail
    else if answer == "OK" then PutOk
    else if answer == "EXISTS" then PutExists
    else PutFail
  }

  datatype GetAnswer = Found(data: string) | Missing | Error | Broken

  function ReadGetReply(reply: string): GetAnswer {
    var (line, body) := FirstLine(reply);
    var header := Trim(line);
    if reply == [] then Broken
    else if header == "MISS" then Missing
    else if header == "ERR" then Error
    else
      var words := Words(header);
      if |words| != 2 || words[0] != "OK" || ParseUint(words[1], U64_MAX).None? then Broken
      else if |body| < ParseUint(words[1], U64_MAX).value then Broken
      else Found(body[..ParseUint(words[1], U64_MAX).value])
  }

  /** Nothing but the two words counts as success. */
  lemma PutReplyIff(reply: string)
    ensures ReadPutReply(reply) == PutOk <==> Trim(FirstLine(reply).0) == "OK"
    ensures ReadPutReply(reply) == PutExists <==> Trim(FirstLine(reply).0) == "EXISTS"
  {
    assert "OK"[0] != "EXISTS"[0];
  }

  lemma PutRepliesRead()
    ensures ReadPutReply("OK\n") == PutOk
    ensures ReadPutReply("EXISTS\n") == PutExists
    ensures ReadPutReply("ERR\n") == PutFail
    ensures ReadPutReply("") == PutFail
  {
    ShortReply("OK");
    ShortReply("EXISTS");
    ShortReply("ERR");
    assert "OK" + ['\n'] == "OK\n" && "EXISTS" + ['\n'] == "EXISTS\n" && "ERR" + ['\n'] == "ERR\n";
    assert "EXISTS"[0] != "OK"[0] && "ERR"[1] != "EXISTS"[1] && "ERR"[0] != "OK"[0];
  }

  /** The client tells the answers to a get without data apart from each other and
  from silence. */
  lemma GetRepliesRead()
    ensures ReadGetReply("MISS\n") == Missing
    ensures ReadGetReply("ERR\n") == Error
    ensures ReadGetReply("") == Broken
  {
    ShortReply("MISS");
    ShortReply("ERR");
    assert "MISS" + ['\n'] == "MISS\n" && "ERR" + ['\n'] == "ERR\n";
    assert "MISS"[0] != "ERR"[0];
  }

  lemma ShortReply(word: string)
    requires word != [] && NoSpace(word)
    ensures Trim(FirstLine(word + ['\n']).0) == word && FirstLine(word + ['\n']).1 == []
  {
    assert '\n' !in word;
    FirstLineOf(word, []);
    assert word + ['\n'] + [] == word + ['\n'];
    TrimLine(word);
  }

  /** The reply to a get reads back as the stored data, whatever octets it holds. */
  lemma GetReplyReads(data: string)
    requires |data| <= U64_MAX
    ensures ReadGetReply(GetReply(data)) == Found(data)
  {
    var line := "OK" + ([' '] + Dec(|data|));
    assert GetReply(data) == line + ['\n'] + data;
    DecPlain(|data|);
    FoundLine(Dec(|data|));
    FirstLineOf(line, data);
    ParseDec(|data|, U64_MAX);
  }

  /** And only such replies are data: a header of OK and a size, and so many octets. */
  lemma FoundIff(reply: string, data: string)
    requires reply != []
    ensures var (line, body) := FirstLine(reply);
            var words := Words(Trim(line));
            ReadGetReply(reply) == Found(data) <==>
              |words| == 2 && words[0] == "OK" && ParseUint(words[1], U64_MAX) == Some(|data|) && data <= body
  {
    OneWord("MISS");
    OneWord("ERR");
    var (line, body) := FirstLine(reply);
    if |data| <= |body| {
      assert data <= body <==> body[..|data|] == data;
    }
  }

  lemma FoundLine(size: string)
    requires size != [] && NoSpace(size)
    ensures var line := "OK" + ([' '] + size);
            && '\n' !in line && Trim(line + ['\n']) == line && line[0] == 'O'
            && Words(line) == ["OK", size]
  {
    var line := "OK" + ([' '] + size);
    assert line[0] == 'O' && line[|line| - 1] == size[|size| - 1];
    TrimLine(line);
    OneWord(size);
    assert NoSpace("OK");
    TwoWords("OK", size);
  }

  // ---------- the running server ----------

  class DropServer {
    const world: World
    const name: string
    const limiter: PutTimes
    var files: map<string, Entry>

    ghost predicate Valid()
      reads this, limiter
    {
      name in limiter.times
    }

    ghost function State(): Drop
      reads this, limiter
      requires Valid()
    {
      Drop(files, limiter.times[name])
    }

    constructor (world: World, name: string, limiter: PutTimes)
      requires name in limiter.times
      ensures Valid() && this.world == world && this.name == name && this.limiter == limiter
      ensures files == map[]
    {
      this.world, this.name, this.limiter, this.files := world, name, limiter, map[];
    }

    method HandleClient(input: string, mono: int, wall: nat) returns (reply: string)
      requires Valid()
      modifies this`files, limiter
      ensures Valid()
      ensures (State(), reply) == Handle(world, old(State()), input, mono, wall)
      ensures limiter.times.Keys == old(limiter.times).Keys
      ensures forall d :: d in limiter.times && d != name ==> limiter.times[d] == old(limiter.times)[d]
    {
      var (line, body) := FirstLine(input);
      match ParseRequest(line)
      case Silent => reply := "";
      case Refused => reply := "ERR\n";
      case PutHead(key, size, counter) => reply := Put(key, size, counter, body, mono, wall);
      case Get(key) =>
        var file := world.digest(key);
        if file !in files {
          return "MISS\n";
        }
        if IsOlderThanTtl(wall, files[file].modified) {
          files := files - {file};
          return "MISS\n";
        }
        reply := GetReply(files[file].data);
    }

    method Put(key: string, size: nat, counter: nat, body: string, mono: int, wall: nat) returns (reply: string)
      requires Valid()
      modifies this`files, limiter
      ensures Valid()
      ensures (State(), reply) == HandlePut(world, old(State()), key, size, counter, body, mono, wall)
      ensures limiter.times == old(limiter.times)[name := AfterCall(old(limiter.times)[name], mono)]
    {
      var allowed := limiter.AllowPut(name, mono);
      if !allowed {
        return "ERR\n";
      }
      if |body| < size {
        return "";
      }
      if !VerifyPutPow(world.hash, key, size, body[..size], counter) {
        return "ERR\n";
      }
      var file := world.digest(key);
      if file in files {
        reply := "EXISTS\n";
      } else {
        files := files[file := Entry(body[..size], wall)];
        reply := "OK\n";
      }
    }

    /** One walk over the directory, file by file. */
    method WalkAndGc(wall: nat) returns (deleted: nat)
      requires Valid()
      modifies this`files
      ensures Valid() && files == Sweep(old(files), wall)
      ensures deleted + |files| == |old(files)|
    {
      deleted := 0;
      var todo := files.Keys;
      while todo != {}
        invariant todo <= files.Keys <= old(files).Keys
        invariant forall f :: f in files ==> files[f] == old(files)[f]
        invariant forall f :: f in old(files) && f !in todo ==>
                    (f in files <==> !IsOlderThanTtl(wall, old(files)[f].modified))
        invariant deleted + |files| == |old(files)|
        decreases |todo|
      {
        var file :| file in todo;
        todo := todo - {file};
        if IsOlderThanTtl(wall, files[file].modified) {
          assert files.Keys - {file} == (files - {file}).Keys;
          files := files - {file};
          deleted := deleted + 1;
        }
      }
    }
  }
}
