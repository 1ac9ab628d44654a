/** The offline state file: ten `key=value` lines with decimal numbers, hex and
nested lists, printed and parsed. */
module OfflineState {
  import opened Wrappers
  import opened Octets
  import opened Text
  import opened Hex

  const SECRET_OCTETS: nat := 32
  const FIELDS: nat := 10

  datatype MissingIndex = MissingIndex(index: nat, rounds: nat, firstMs: nat, lastMs: nat)

  datatype SkippedIndex = SkippedIndex(index: nat, skippedMs: nat, probeMs: nat)

  datatype State = State(
    secret: string, sendIndex: nat, recvBase: nat, window: nat, consumed: seq<nat>,
    remoteNext: nat, highest: Option<nat>, missing: seq<MissingIndex>, skipped: seq<SkippedIndex>,
    forwardProbe: nat)

  const DEFAULT: State := State(Zeros(SECRET_OCTETS), 0, 0, 8, [], 0, None, [], [], 0)

  /** The ranges of the field types. */
  ghost predicate IsState(s: State) {
    && |s.secret| == SECRET_OCTETS && IsOctets(s.secret)
    && s.sendIndex <= U64_MAX && s.recvBase <= U64_MAX && s.window <= U32_MAX
    && (forall i :: 0 <= i < |s.consumed| ==> s.consumed[i] <= U64_MAX)
    && s.remoteNext <= U64_MAX && (s.highest.Some? ==> s.highest.value <= U64_MAX)
    && (forall i :: 0 <= i < |s.missing| ==> IsMissing(s.missing[i]))
    && (forall i :: 0 <= i < |s.skipped| ==> IsSkipped(s.skipped[i]))
    && s.forwardProbe <= U64_MAX
  }

  ghost predicate IsMissing(m: MissingIndex) {
    m.index <= U64_MAX && m.rounds <= U32_MAX && m.firstMs <= U64_MAX && m.lastMs <= U64_MAX
  }

  ghost predicate IsSkipped(k: SkippedIndex) {
    k.index <= U64_MAX && k.skippedMs <= U64_MAX && k.probeMs <= U64_MAX
  }

  // ---------- printing ----------

  function DecAll(ns: seq<nat>): seq<string> {
    if ns == [] then [] else [Dec(ns[0])] + DecAll(ns[1..])
  }

  function PrintMissing(m: MissingIndex): string {
    Join([Dec(m.index), Dec(m.rounds), Dec(m.firstMs), Dec(m.lastMs)], ':')
  }

  function PrintSkipped(k: SkippedIndex): string {
    Join([Dec(k.index), Dec(k.skippedMs), Dec(k.probeMs)], ':')
  }

  function PrintAllMissing(ms: seq<MissingIndex>): seq<string> {
    if ms == [] then [] else [PrintMissing(ms[0])] + PrintAllMissing(ms[1..])
  }

  function PrintAllSkipped(ks: seq<SkippedIndex>): seq<string> {
    if ks == [] then [] else [PrintSkipped(ks[0])] + PrintAllSkipped(ks[1..])
  }

  function FieldKey(field: nat): string
    requires field < FIELDS
  {
    if field == 0 then "offline_shared_secret"
    else if field == 1 then "drop_send_index"
    else if field == 2 then "drop_recv_base"
    else if field == 3 then "drop_window"
    else if field == 4 then "consumed_drop_recv"
    else if field == 5 then "known_remote_next_send"
    else if field == 6 then "highest_authenticated_recv_index"
    else if field == 7 then "missing_drop_recv"
    else if field == 8 then "skipped_drop_recv"
    else "forward_probe_index"
  }

  function FieldText(s: State, field: nat): string
    requires field < FIELDS
  {
    if field == 0 then HexEncode(s.secret)
    else if field == 1 then Dec(s.sendIndex)
    else if field == 2 then Dec(s.recvBase)
    else if field == 3 then Dec(s.window)
    else if field == 4 then Join(DecAll(s.consumed), ',')
    else if field == 5 then Dec(s.remoteNext)
    else if field == 6 then (if s.highest.Some? then Dec(s.highest.value) else "")
    else if field == 7 then Join(PrintAllMissing(s.missing), ',')
    else if field == 8 then Join(PrintAllSkipped(s.skipped), ',')
    else Dec(s.forwardProbe)
  }

  function SavedLine(s: State, field: nat): string
    requires field < FIELDS
  {
    FieldKey(field) + ['='] + FieldText(s, field)
  }

  function SavedLines(s: State): (lines: seq<string>)
    ensures |lines| == FIELDS
    ensures forall f :: 0 <= f < FIELDS ==> lines[f] == SavedLine(s, f)
  {
    seq(FIELDS, f requires 0 <= f < FIELDS => SavedLine(s, f))
  }

  /** The lines, each ended by a newline. */
  function Unlines(lines: seq<string>): string {
    if lines == [] then [] else lines[0] + ['\n'] + Unlines(lines[1..])
  }

  function SavedText(s: State): string {
    Unlines(SavedLines(s))
  }

  // ---------- parsing ----------

  function ParseNumbers(pieces: seq<string>): seq<nat> {
    if pieces == [] then []
    else
      var rest := ParseNumbers(pieces[1..]);
      match ParseUint(Trim(pieces[0]), U64_MAX)
      case None => rest
      case Some(n) => [n] + rest
  }

  /** The first four parts of an entry; further parts are not looked at. */
  function ParseMissing(entry: string): Option<MissingIndex> {
    var parts := Split(entry, ':');
    if |parts| < 4 then None
    else
      var index, rounds := ParseUint(parts[0], U64_MAX), ParseUint(parts[1], U32_MAX);
      var first, last := ParseUint(parts[2], U64_MAX), ParseUint(parts[3], U64_MAX);
      if index.None? || rounds.None? || first.None? || last.None? then None
      else Some(MissingIndex(index.value, rounds.value, first.value, last.value))
  }

  function ParseSkipped(entry: string): Option<SkippedIndex> {
    var parts := Split(entry, ':');
    if |parts| < 3 then None
    else
      var index, at, probe := ParseUint(parts[0], U64_MAX), ParseUint(parts[1], U64_MAX), ParseUint(parts[2], U64_MAX);
      if index.None? || at.None? || probe.None? then None
      else Some(SkippedIndex(index.value, at.value, probe.value))
  }

  function ParseAllMissing(entries: seq<string>): seq<MissingIndex> {
    if entries == [] then []
    else
      var rest := ParseAllMissing(entries[1..]);
      match ParseMissing(entries[0]) case None => rest case Some(m) => [m] + rest
  }

  function ParseAllSkipped(entries: seq<string>): seq<SkippedIndex> {
    if entries == [] then []
    else
      var rest := ParseAllSkipped(entries[1..]);
      match ParseSkipped(entries[0]) case None => rest case Some(k) => [k] + rest
  }

  function ParseSecret(val: string, before: string): string {
    match HexDecode(val)
    case None => before
    case Some(octets) => if |octets| == SECRET_OCTETS then octets else before
  }

  /** Which field a key names. */
  function FieldOf(key: string): (field: Option<nat>)
    ensures field.Some? ==> field.value < FIELDS && key == FieldKey(field.value)
    ensures field.None? ==> UnknownKey(key)
  {
    if key == FieldKey(0) then Some(0) else if key == FieldKey(1) then Some(1)
    else if key == FieldKey(2) then Some(2) else if key == FieldKey(3) then Some(3)
    else if key == FieldKey(4) then Some(4) else if key == FieldKey(5) then Some(5)
    else if key == FieldKey(6) then Some(6) else if key == FieldKey(7) then Some(7)
    else if key == FieldKey(8) then Some(8) else if key == FieldKey(9) then Some(9)
    else None
  }

  ghost predicate UnknownKey(key: string) {
    forall f :: 0 <= f < FIELDS ==> key != FieldKey(f)
  }

  /** A value for one field; most values that do not parse leave it as it was. */
  function Assign(st: State, field: nat, val: string): State
    requires field < FIELDS
  {
    if field == 0 then st.(secret := ParseSecret(val, st.secret))
    else if field == 1 then st.(sendIndex := ParseUint(val, U64_MAX).GetOr(st.sendIndex))
    else if field == 2 then st.(recvBase := ParseUint(val, U64_MAX).GetOr(st.recvBase))
    else if field == 3 then st.(window := ParseUint(val, U32_MAX).GetOr(st.window))
    else if field == 4 then (if val == [] then st else st.(consumed := ParseNumbers(Split(val, ','))))
    else if field == 5 then st.(remoteNext := ParseUint(val, U64_MAX).GetOr(st.remoteNext))
    else if field == 6 then st.(highest := ParseUint(val, U64_MAX))
    else if field == 7 then st.(missing := ParseAllMissing(Split(val, ',')))
    else if field == 8 then st.(skipped := ParseAllSkipped(Split(val, ',')))
    else st.(forwardProbe := ParseUint(val, U64_MAX).GetOr(st.forwardProbe))
  }

  function ApplyLine(st: State, raw: string): State {
    var line := Trim(raw);
    if line == [] then st
    else
      match SplitOnce(line, '=')
      case None => st
      case Some((k, v)) =>
        match FieldOf(Trim(k))
        case None => st
        case Some(field) => Assign(st, field, Trim(v))
  }

  function ParseLines(st: State, lines: seq<string>): State {
    if lines == [] then st else ApplyLine(ParseLines(st, lines[..|lines| - 1]), lines[|lines| - 1])
  }

  /** `lines`: the pieces before newlines without a closing carriage return, and
  a last piece when it is not empty. */
  function Lines(text: string): seq<string>
    decreases |text|
  {
    if text == [] then []
    else
      var i := IndexOf(text, '\n');
      if i == |text| then [text]
      else
        [if i > 0 && text[i - 1] == '\r' then text[..i - 1] else text[..i]] + Lines(text[i + 1..])
  }

  function ParseText(text: string): State {
    ParseLines(DEFAULT, Lines(text))
  }

  // ---------- whatever the file holds ----------

  lemma {:induction false} NumbersInRange(pieces: seq<string>)
    ensures forall i :: 0 <= i < |ParseNumbers(pieces)| ==> ParseNumbers(pieces)[i] <= U64_MAX
  {
    if pieces != [] {
      NumbersInRange(pieces[1..]);
    }
  }

  lemma {:induction false} MissingInRange(entries: seq<string>)
    ensures forall i :: 0 <= i < |ParseAllMissing(entries)| ==> IsMissing(ParseAllMissing(entries)[i])
  {
    if entries != [] {
      MissingInRange(entries[1..]);
    }
  }

  lemma {:induction false} SkippedInRange(entries: seq<string>)
    ensures forall i :: 0 <= i < |ParseAllSkipped(entries)| ==> IsSkipped(ParseAllSkipped(entries)[i])
  {
    if entries != [] {
      SkippedInRange(entries[1..]);
    }
  }

  lemma AssignInRange(st: State, field: nat, val: string)
    requires IsState(st) && field < FIELDS
    ensures IsState(Assign(st, field, val))
  {
    if field == 0 && HexDecode(val).Some? {
      HexReadsBack(val);
    }
    NumbersInRange(Split(val, ','));
    MissingInRange(Split(val, ','));
    SkippedInRange(Split(val, ','));
  }

  /** The state that is loaded has every field in the range of its type, whatever
  text the file holds. */
  lemma {:induction false} LoadedInRange(lines: seq<string>)
    ensures IsState(ParseLines(DEFAULT, lines))
    decreases |lines|
  {
    if lines != [] {
      LoadedInRange(lines[..|lines| - 1]);
      LineInRange(ParseLines(DEFAULT, lines[..|lines| - 1]), lines[|lines| - 1]);
    } else {
      assert IsOctets(DEFAULT.secret);
    }
  }

  lemma LineInRange(st: State, raw: string)
    requires IsState(st)
    ensures IsState(ApplyLine(st, raw))
  {
    match SplitOnce(Trim(raw), '=')
    case None =>
    case Some((k, v)) =>
      if FieldOf(Trim(k)).Some? {
        AssignInRange(st, FieldOf(Trim(k)).value, Trim(v));
      }
  }

  /** A value that is no secret or no number leaves its field as it was; only the
  highest index becomes none. */
  lemma BadValue(st: State, field: nat, val: string)
    requires field < FIELDS
    ensures field == 0 && (HexDecode(val).None? || |HexDecode(val).value| != 32) ==> Assign(st, field, val) == st
    ensures field in {1, 2, 3, 5, 9} && ParseUint(val, if field == 3 then U32_MAX else U64_MAX).None? ==> Assign(st, field, val) == st
    ensures field == 6 && ParseUint(val, U64_MAX).None? ==> Assign(st, field, val) == st.(highest := None)
    ensures field == 4 && val == [] ==> Assign(st, field, val) == st
    ensures field == 7 && val == [] ==> Assign(st, field, val) == st.(missing := [])
    ensures field == 8 && val == [] ==> Assign(st, field, val) == st.(skipped := [])
  {
    EmptyTextHasNoEntries();
  }

  /** Without a line for it a field has its default. */
  lemma EmptyFileLoads()
    ensures ParseText([]) == State(Zeros(32), 0, 0, 8, [], 0, None, [], [], 0)
  {
  }

  /** The last line counts also when no newline ends it. */
  lemma UnendedLineCounts(line: string)
    requires line != [] && '\n' !in line
    ensures ParseText(line) == ApplyLine(DEFAULT, line)
  {
    IndexOfAbsent(line, '\n');
    assert Lines(line) == [line] && [line][..0] == [];
    assert ParseLines(DEFAULT, [line][..0]) == DEFAULT;
  }

  /** Parts behind those of an entry are not looked at. */
  lemma ExtraPartsIgnored(m: MissingIndex, k: SkippedIndex, extra: string)
    requires IsMissing(m) && IsSkipped(k) && ':' !in extra
    ensures ParseMissing(Join([Dec(m.index), Dec(m.rounds), Dec(m.firstMs), Dec(m.lastMs), extra], ':')) == Some(m)
    ensures ParseSkipped(Join([Dec(k.index), Dec(k.skippedMs), Dec(k.probeMs), extra], ':')) == Some(k)
  {
    FourNumbers(m, extra);
    DecPlain(k.index);
    DecPlain(k.skippedMs);
    DecPlain(k.probeMs);
    SplitJoin([Dec(k.index), Dec(k.skippedMs), Dec(k.probeMs), extra], ':');
    ParseDec(k.index, U64_MAX);
    ParseDec(k.skippedMs, U64_MAX);
    ParseDec(k.probeMs, U64_MAX);
  }

  lemma FourNumbers(m: MissingIndex, extra: string)
    requires IsMissing(m) && ':' !in extra
    ensures ParseMissing(Join([Dec(m.index), Dec(m.rounds), Dec(m.firstMs), Dec(m.lastMs), extra], ':')) == Some(m)
  {
    DecPlain(m.index);
    DecPlain(m.rounds);
    DecPlain(m.firstMs);
    DecPlain(m.lastMs);
    SplitJoin([Dec(m.index), Dec(m.rounds), Dec(m.firstMs), Dec(m.lastMs), extra], ':');
    ParseDec(m.index, U64_MAX);
    ParseDec(m.rounds, U32_MAX);
    ParseDec(m.firstMs, U64_MAX);
    ParseDec(m.lastMs, U64_MAX);
  }

  /** An entry that does not parse is skipped, the others stay. */
  lemma {:induction false} BadEntrySkipped(before: seq<string>, entry: string, after: seq<string>)
    ensures ParseUint(Trim(entry), U64_MAX).None? ==> ParseNumbers(before + [entry] + after) == ParseNumbers(before + after)
    ensures ParseMissing(entry).None? ==> ParseAllMissing(before + [entry] + after) == ParseAllMissing(before + after)
    ensures ParseSkipped(entry).None? ==> ParseAllSkipped(before + [entry] + after) == ParseAllSkipped(before + after)
  {
    if before == [] {
      assert before + [entry] + after == [entry] + after && before + after == after;
      assert ([entry] + after)[1..] == after;
    } else {
      BadEntrySkipped(before[1..], entry, after);
      assert (before + [entry] + after)[1..] == before[1..] + [entry] + after;
      assert (before + after)[1..] == before[1..] + after;
    }
  }

  // ---------- a saved value parses back ----------

  lemma {:induction false} NumbersRoundTrip(ns: seq<nat>)
    requires forall i :: 0 <= i < |ns| ==> ns[i] <= U64_MAX
    ensures ParseNumbers(DecAll(ns)) == ns
    ensures |DecAll(ns)| == |ns| && forall i :: 0 <= i < |ns| ==> DecAll(ns)[i] == Dec(ns[i])
  {
    if ns != [] {
      DecPlain(ns[0]);
      TrimNothing(Dec(ns[0]));
      ParseDec(ns[0], U64_MAX);
      NumbersRoundTrip(ns[1..]);
    }
  }

  lemma MissingRoundTrip(m: MissingIndex)
    requires IsMissing(m)
    ensures ParseMissing(PrintMissing(m)) == Some(m)
  {
    DecPlain(m.index);
    DecPlain(m.rounds);
    DecPlain(m.firstMs);
    DecPlain(m.lastMs);
    SplitJoin([Dec(m.index), Dec(m.rounds), Dec(m.firstMs), Dec(m.lastMs)], ':');
    ParseDec(m.index, U64_MAX);
    ParseDec(m.rounds, U32_MAX);
    ParseDec(m.firstMs, U64_MAX);
    ParseDec(m.lastMs, U64_MAX);
  }

  lemma SkippedRoundTrip(k: SkippedIndex)
    requires IsSkipped(k)
    ensures ParseSkipped(PrintSkipped(k)) == Some(k)
  {
    DecPlain(k.index);
    DecPlain(k.skippedMs);
    DecPlain(k.probeMs);
    SplitJoin([Dec(k.index), Dec(k.skippedMs), Dec(k.probeMs)], ':');
    ParseDec(k.index, U64_MAX);
    ParseDec(k.skippedMs, U64_MAX);
    ParseDec(k.probeMs, U64_MAX);
  }

  lemma FirstMissing(entry: string, rest: seq<string>)
    ensures ParseMissing(entry).Some? ==> ParseAllMissing([entry] + rest) == [ParseMissing(entry).value] + ParseAllMissing(rest)
  {
    assert ([entry] + rest)[1..] == rest;
  }

  lemma FirstSkipped(entry: string, rest: seq<string>)
    ensures ParseSkipped(entry).Some? ==> ParseAllSkipped([entry] + rest) == [ParseSkipped(entry).value] + ParseAllSkipped(rest)
  {
    assert ([entry] + rest)[1..] == rest;
  }

  lemma {:induction false} PrintAllMissingAt(ms: seq<MissingIndex>, i: nat)
    requires i < |ms|
    ensures |PrintAllMissing(ms)| == |ms| && PrintAllMissing(ms)[i] == PrintMissing(ms[i])
  {
    if i > 0 {
      PrintAllMissingAt(ms[1..], i - 1);
    } else {
      PrintAllMissingLength(ms);
    }
  }

  lemma {:induction false} PrintAllMissingLength(ms: seq<MissingIndex>)
    ensures |PrintAllMissing(ms)| == |ms|
  {
    if ms != [] {
      PrintAllMissingLength(ms[1..]);
    }
  }

  lemma {:induction false} AllMissingRoundTrip(ms: seq<MissingIndex>)
    requires forall i :: 0 <= i < |ms| ==> IsMissing(ms[i])
    ensures ParseAllMissing(PrintAllMissing(ms)) == ms
  {
    if ms != [] {
      MissingRoundTrip(ms[0]);
      AllMissingRoundTrip(ms[1..]);
      FirstMissing(PrintMissing(ms[0]), PrintAllMissing(ms[1..]));
    }
  }

  lemma {:induction false} PrintAllSkippedAt(ks: seq<SkippedIndex>, i: nat)
    requires i < |ks|
    ensures |PrintAllSkipped(ks)| == |ks| && PrintAllSkipped(ks)[i] == PrintSkipped(ks[i])
  {
    if i > 0 {
      PrintAllSkippedAt(ks[1..], i - 1);
    } else {
      PrintAllSkippedLength(ks);
    }
  }

  lemma {:induction false} PrintAllSkippedLength(ks: seq<SkippedIndex>)
    ensures |PrintAllSkipped(ks)| == |ks|
  {
    if ks != [] {
      PrintAllSkippedLength(ks[1..]);
    }
  }

  lemma {:induction false} AllSkippedRoundTrip(ks: seq<SkippedIndex>)
    requires forall i :: 0 <= i < |ks| ==> IsSkipped(ks[i])
    ensures ParseAllSkipped(PrintAllSkipped(ks)) == ks
  {
    if ks != [] {
      SkippedRoundTrip(ks[0]);
      AllSkippedRoundTrip(ks[1..]);
      FirstSkipped(PrintSkipped(ks[0]), PrintAllSkipped(ks[1..]));
    }
  }

  /** The characters of numbers and nested lists of numbers. */
  const NUMBER_CHARS: set<char> := {'0', '1', '2', '3', '4', '5', '6', '7', '8', '9'}
  const ENTRY_CHARS: set<char> := NUMBER_CHARS + {':'}
  const LIST_CHARS: set<char> := ENTRY_CHARS + {','}

  ghost predicate Uses(s: string, chars: set<char>) {
    forall i :: 0 <= i < |s| ==> s[i] in chars
  }

  lemma DecUses(n: nat)
    ensures Uses(Dec(n), NUMBER_CHARS)
  {
    forall i | 0 <= i < |Dec(n)| ensures Dec(n)[i] in NUMBER_CHARS {
      assert IsDigit(Dec(n)[i]);
    }
  }

  lemma EntryUses(pieces: seq<string>, c: char)
    requires forall i :: 0 <= i < |pieces| ==> Uses(pieces[i], NUMBER_CHARS)
    requires c == ':' || c == ','
    ensures Uses(Join(pieces, c), if c == ':' then ENTRY_CHARS else LIST_CHARS)
  {
    JoinIn(pieces, c, if c == ':' then ENTRY_CHARS else LIST_CHARS);
  }

  lemma ListUses(pieces: seq<string>)
    requires forall i :: 0 <= i < |pieces| ==> Uses(pieces[i], ENTRY_CHARS)
    ensures Uses(Join(pieces, ','), LIST_CHARS)
    ensures forall i :: 0 <= i < |pieces| ==> ',' !in pieces[i]
  {
    JoinIn(pieces, ',', LIST_CHARS);
  }

  lemma MissingUses(m: MissingIndex)
    ensures Uses(PrintMissing(m), ENTRY_CHARS)
  {
    DecUses(m.index);
    DecUses(m.rounds);
    DecUses(m.firstMs);
    DecUses(m.lastMs);
    EntryUses([Dec(m.index), Dec(m.rounds), Dec(m.firstMs), Dec(m.lastMs)], ':');
  }

  lemma SkippedUses(k: SkippedIndex)
    ensures Uses(PrintSkipped(k), ENTRY_CHARS)
  {
    DecUses(k.index);
    DecUses(k.skippedMs);
    DecUses(k.probeMs);
    EntryUses([Dec(k.index), Dec(k.skippedMs), Dec(k.probeMs)], ':');
  }

  lemma ListPlain(val: string)
    requires Uses(val, LIST_CHARS)
    ensures NoSpace(val) && '\n' !in val
  {
    forall i | 0 <= i < |val| ensures !IsSpace(val[i]) && val[i] != '\n' {
      assert val[i] in LIST_CHARS;
    }
  }

  lemma ConsumedParses(ns: seq<nat>)
    requires forall i :: 0 <= i < |ns| ==> ns[i] <= U64_MAX
    ensures var text := Join(DecAll(ns), ',');
            NoSpace(text) && (text == [] <==> ns == []) && (ns != [] ==> ParseNumbers(Split(text, ',')) == ns)
  {
    var pieces := DecAll(ns);
    NumbersRoundTrip(ns);
    forall i | 0 <= i < |pieces| ensures Uses(pieces[i], NUMBER_CHARS) && ',' !in pieces[i] {
      DecUses(ns[i]);
      DecPlain(ns[i]);
    }
    EntryUses(pieces, ',');
    ListPlain(Join(pieces, ','));
    if pieces != [] {
      assert pieces[0] != [];
      SplitJoin(pieces, ',');
    }
  }

  lemma EmptyTextHasNoEntries()
    ensures ParseAllMissing(Split([], ',')) == [] && ParseAllSkipped(Split([], ',')) == []
  {
    assert IndexOf([], ',') == 0 && IndexOf([], ':') == 0;
    assert |Split([], ':')| == 1;
  }

  lemma MissingParses(ms: seq<MissingIndex>)
    requires forall i :: 0 <= i < |ms| ==> IsMissing(ms[i])
    ensures var text := Join(PrintAllMissing(ms), ','); NoSpace(text) && ParseAllMissing(Split(text, ',')) == ms
  {
    var pieces := PrintAllMissing(ms);
    AllMissingRoundTrip(ms);
    PrintAllMissingLength(ms);
    forall i | 0 <= i < |pieces| ensures Uses(pieces[i], ENTRY_CHARS) {
      PrintAllMissingAt(ms, i);
      MissingUses(ms[i]);
    }
    EntriesParse(pieces);
  }

  lemma SkippedParses(ks: seq<SkippedIndex>)
    requires forall i :: 0 <= i < |ks| ==> IsSkipped(ks[i])
    ensures var text := Join(PrintAllSkipped(ks), ','); NoSpace(text) && ParseAllSkipped(Split(text, ',')) == ks
  {
    var pieces := PrintAllSkipped(ks);
    AllSkippedRoundTrip(ks);
    PrintAllSkippedLength(ks);
    forall i | 0 <= i < |pieces| ensures Uses(pieces[i], ENTRY_CHARS) {
      PrintAllSkippedAt(ks, i);
      SkippedUses(ks[i]);
    }
    EntriesParse(pieces);
  }

  lemma EntriesParse(pieces: seq<string>)
    requires forall i :: 0 <= i < |pieces| ==> Uses(pieces[i], ENTRY_CHARS)
    ensures NoSpace(Join(pieces, ','))
    ensures ParseAllMissing(Split(Join(pieces, ','), ',')) == ParseAllMissing(pieces)
    ensures ParseAllSkipped(Split(Join(pieces, ','), ',')) == ParseAllSkipped(pieces)
  {
    ListUses(pieces);
    ListPlain(Join(pieces, ','));
    if pieces == [] {
      EmptyTextHasNoEntries();
    } else {
      SplitJoin(pieces, ',');
    }
  }

  lemma NumberParses(n: nat, max: nat)
    requires n <= max
    ensures NoSpace(Dec(n)) && ParseUint(Dec(n), max) == Some(n)
  {
    DecPlain(n);
    ParseDec(n, max);
  }

  // ---------- fields ----------

  predicate SameField(a: State, b: State, field: nat)
    requires field < FIELDS
  {
    if field == 0 then a.secret == b.secret
    else if field == 1 then a.sendIndex == b.sendIndex
    else if field == 2 then a.recvBase == b.recvBase
    else if field == 3 then a.window == b.window
    else if field == 4 then a.consumed == b.consumed
    else if field == 5 then a.remoteNext == b.remoteNext
    else if field == 6 then a.highest == b.highest
    else if field == 7 then a.missing == b.missing
    else if field == 8 then a.skipped == b.skipped
    else a.forwardProbe == b.forwardProbe
  }

  /** `after` is `before` with one field taken from `s`. */
  ghost predicate TakesField(before: State, after: State, s: State, field: nat)
    requires field < FIELDS
  {
    SameField(after, s, field) && forall f :: 0 <= f < FIELDS && f != field ==> SameField(after, before, f)
  }

  predicate IsKeyLetter(c: char) {
    c == '_' || 'a' <= c <= 'z'
  }

  ghost predicate AllKeyLetters(s: string) {
    forall i :: 0 <= i < |s| ==> IsKeyLetter(s[i])
  }

  lemma KeyLetters(field: nat)
    requires field < FIELDS
    ensures FieldKey(field) != [] && AllKeyLetters(FieldKey(field))
  {
    if field < 5 { FirstKeysLetters(field); } else { LastKeysLetters(field); }
  }

  lemma FirstKeysLetters(field: nat)
    requires field < 5
    ensures FieldKey(field) != [] && AllKeyLetters(FieldKey(field))
  {
    if field == 0 { assert AllKeyLetters("offline_shared_secret"); }
    else if field == 1 { assert AllKeyLetters("drop_send_index"); }
    else if field == 2 { assert AllKeyLetters("drop_recv_base"); }
    else if field == 3 { assert AllKeyLetters("drop_window"); }
    else { assert AllKeyLetters("consumed_drop_recv"); }
  }

  lemma LastKeysLetters(field: nat)
    requires 5 <= field < FIELDS
    ensures FieldKey(field) != [] && AllKeyLetters(FieldKey(field))
  {
    if field == 5 { assert AllKeyLetters("known_remote_next_send"); }
    else if field == 6 { assert AllKeyLetters("highest_authenticated_recv_index"); }
    else if field == 7 { assert AllKeyLetters("missing_drop_recv"); }
    else if field == 8 { assert AllKeyLetters("skipped_drop_recv"); }
    else { assert AllKeyLetters("forward_probe_index"); }
  }

  lemma KeyPlain(field: nat)
    requires field < FIELDS
    ensures NoSpace(FieldKey(field)) && '=' !in FieldKey(field) && FieldKey(field) != []
  {
    KeyLetters(field);
  }

  /** The keys differ in length, but for one pair that differs in its first letter. */
  lemma FieldOfKey(field: nat)
    requires field < FIELDS
    ensures FieldOf(FieldKey(field)) == Some(field)
  {
    assert |FieldKey(field)| == [21, 15, 14, 11, 18, 22, 32, 17, 17, 19][field];
    assert field == 7 ==> FieldKey(field)[0] == 'm';
    assert field == 8 ==> FieldKey(field)[0] == 's';
  }

  lemma ApplyKeyValue(st: State, key: string, val: string)
    requires NoSpace(key) && '=' !in key && key != [] && NoSpace(val)
    ensures ApplyLine(st, key + ['='] + val) ==
            match FieldOf(key) case None => st case Some(field) => Assign(st, field, val)
  {
    var line := key + ['='] + val;
    TrimNothing(line);
    SplitOnceAfter(key, '=', val);
    TrimNothing(key);
    TrimNothing(val);
  }

  function SetField(st: State, s: State, field: nat): State
    requires field < FIELDS
  {
    if field == 0 then st.(secret := s.secret)
    else if field == 1 then st.(sendIndex := s.sendIndex)
    else if field == 2 then st.(recvBase := s.recvBase)
    else if field == 3 then st.(window := s.window)
    else if field == 4 then st.(consumed := s.consumed)
    else if field == 5 then st.(remoteNext := s.remoteNext)
    else if field == 6 then st.(highest := s.highest)
    else if field == 7 then st.(missing := s.missing)
    else if field == 8 then st.(skipped := s.skipped)
    else st.(forwardProbe := s.forwardProbe)
  }

  lemma SetTakesField(st: State, s: State, field: nat)
    requires field < FIELDS
    ensures TakesField(st, SetField(st, s, field), s, field)
  {
  }

  lemma AssignNumber(st: State, s: State, field: nat)
    requires IsState(s) && field in {1, 2, 3, 5, 9}
    ensures NoSpace(FieldText(s, field)) && Assign(st, field, FieldText(s, field)) == SetField(st, s, field)
  {
    if field == 1 { NumberParses(s.sendIndex, U64_MAX); }
    else if field == 2 { NumberParses(s.recvBase, U64_MAX); }
    else if field == 3 { NumberParses(s.window, U32_MAX); }
    else if field == 5 { NumberParses(s.remoteNext, U64_MAX); }
    else { NumberParses(s.forwardProbe, U64_MAX); }
  }

  lemma AssignOther(st: State, s: State, field: nat)
    requires IsState(s) && field in {0, 4, 6, 7, 8}
    requires s.consumed == [] ==> st.consumed == []
    ensures NoSpace(FieldText(s, field)) && Assign(st, field, FieldText(s, field)) == SetField(st, s, field)
  {
    if field == 0 { HexRoundTrip(s.secret); }
    else if field == 4 { ConsumedParses(s.consumed); }
    else if field == 6 { if s.highest.Some? { NumberParses(s.highest.value, U64_MAX); } }
    else if field == 7 { MissingParses(s.missing); }
    else { SkippedParses(s.skipped); }
  }

  lemma AssignTakesField(st: State, s: State, field: nat)
    requires IsState(s) && field < FIELDS
    requires s.consumed == [] ==> st.consumed == []
    ensures NoSpace(FieldText(s, field))
    ensures TakesField(st, Assign(st, field, FieldText(s, field)), s, field)
  {
    if field in {1, 2, 3, 5, 9} { AssignNumber(st, s, field); } else { AssignOther(st, s, field); }
    SetTakesField(st, s, field);
  }

  /** A saved line sets its own field and no other. */
  lemma SavedLineTakesField(st: State, s: State, field: nat)
    requires IsState(s) && field < FIELDS
    requires s.consumed == [] ==> st.consumed == []
    ensures TakesField(st, ApplyLine(st, SavedLine(s, field)), s, field)
  {
    AssignTakesField(st, s, field);
    KeyPlain(field);
    FieldOfKey(field);
    ApplyKeyValue(st, FieldKey(field), FieldText(s, field));
  }

  // ---------- round trips ----------

  /** A line the parser passes over: blank, without `=`, or with an unknown key. */
  ghost predicate Ignorable(raw: string) {
    || SplitOnce(Trim(raw), '=').None?
    || UnknownKey(Trim(SplitOnce(Trim(raw), '=').value.0))
  }

  /** Every field so far is the default or the saved one, and saved when its
  line has been met. */
  ghost predicate OnTheWay(st: State, s: State, seen: seq<string>) {
    forall f :: 0 <= f < FIELDS ==> FieldOnTheWay(st, s, seen, f)
  }

  ghost predicate FieldOnTheWay(st: State, s: State, seen: seq<string>, f: nat)
    requires f < FIELDS
  {
    && (SameField(st, DEFAULT, f) || SameField(st, s, f))
    && (SavedLine(s, f) in seen ==> SameField(st, s, f))
  }

  ghost predicate SavedOrIgnorable(s: State, line: string) {
    Ignorable(line) || exists f :: 0 <= f < FIELDS && line == SavedLine(s, f)
  }

  lemma StepOnTheWay(st: State, s: State, seen: seq<string>, line: string)
    requires IsState(s) && OnTheWay(st, s, seen) && SavedOrIgnorable(s, line)
    ensures OnTheWay(ApplyLine(st, line), s, seen + [line])
  {
    if f :| 0 <= f < FIELDS && line == SavedLine(s, f) {
      assert FieldOnTheWay(st, s, seen, 4);
      SavedLineTakesField(st, s, f);
      forall g | 0 <= g < FIELDS ensures FieldOnTheWay(ApplyLine(st, line), s, seen + [line], g) {
        assert FieldOnTheWay(st, s, seen, g);
        SavedOnTheWay(st, s, seen, f, g);
      }
    } else {
      IgnorableChangesNothing(st, line);
      forall g | 0 <= g < FIELDS ensures FieldOnTheWay(st, s, seen + [line], g) {
        assert FieldOnTheWay(st, s, seen, g) && line != SavedLine(s, g);
      }
    }
  }

  lemma SavedOnTheWay(st: State, s: State, seen: seq<string>, f: nat, g: nat)
    requires IsState(s) && f < FIELDS && g < FIELDS && FieldOnTheWay(st, s, seen, g)
    requires SameField(st, DEFAULT, 4) || SameField(st, s, 4)
    requires TakesField(st, ApplyLine(st, SavedLine(s, f)), s, f)
    ensures FieldOnTheWay(ApplyLine(st, SavedLine(s, f)), s, seen + [SavedLine(s, f)], g)
  {
    if SavedLine(s, f) == SavedLine(s, g) {
      SavedLineTakesField(st, s, g);
    } else {
      OtherFieldStays(st, ApplyLine(st, SavedLine(s, f)), s, f, g);
    }
  }

  lemma OtherFieldStays(st: State, after: State, s: State, f: nat, g: nat)
    requires f < FIELDS && g < FIELDS && f != g && TakesField(st, after, s, f)
    ensures SameField(after, s, g) <==> SameField(st, s, g)
    ensures SameField(after, DEFAULT, g) <==> SameField(st, DEFAULT, g)
  {
    SameFieldTrans(after, st, s, g);
    SameFieldTrans(after, st, DEFAULT, g);
  }

  lemma SameFieldTrans(a: State, b: State, c: State, field: nat)
    requires field < FIELDS && SameField(a, b, field)
    ensures SameField(a, c, field) <==> SameField(b, c, field)
  {
  }

  lemma IgnorableChangesNothing(st: State, line: string)
    requires Ignorable(line)
    ensures ApplyLine(st, line) == st
  {
  }

  ghost predicate AllKnown(s: State, lines: seq<string>) {
    forall i :: 0 <= i < |lines| ==> SavedOrIgnorable(s, lines[i])
  }

  lemma KnownSnoc(s: State, lines: seq<string>)
    requires AllKnown(s, lines) && lines != []
    ensures AllKnown(s, lines[..|lines| - 1]) && SavedOrIgnorable(s, lines[|lines| - 1])
    ensures lines == lines[..|lines| - 1] + [lines[|lines| - 1]]
  {
  }

  lemma StartOnTheWay(s: State)
    ensures OnTheWay(DEFAULT, s, [])
  {
  }

  lemma {:induction false} LinesOnTheWay(s: State, lines: seq<string>)
    requires IsState(s) && AllKnown(s, lines)
    ensures OnTheWay(ParseLines(DEFAULT, lines), s, lines)
    decreases |lines|
  {
    if lines == [] {
      StartOnTheWay(s);
    } else {
      var init, last := lines[..|lines| - 1], lines[|lines| - 1];
      KnownSnoc(s, lines);
      LinesOnTheWay(s, init);
      StepOnTheWay(ParseLines(DEFAULT, init), s, init, last);
    }
  }

  /** The saved lines in any order, repeated or mixed with lines that are blank
  or have unknown keys, parse back to exactly the saved state. */
  lemma AnyOrderParses(s: State, lines: seq<string>)
    requires IsState(s) && AllKnown(s, lines)
    requires forall f :: 0 <= f < FIELDS ==> SavedLine(s, f) in lines
    ensures ParseLines(DEFAULT, lines) == s
  {
    LinesOnTheWay(s, lines);
    var st := ParseLines(DEFAULT, lines);
    forall f | 0 <= f < FIELDS ensures SameField(st, s, f) {
      assert FieldOnTheWay(st, s, lines, f);
    }
    AllFieldsSame(st, s);
  }

  lemma AllFieldsSame(a: State, b: State)
    requires forall f :: 0 <= f < FIELDS ==> SameField(a, b, f)
    ensures a == b
  {
    assert SameField(a, b, 0) && SameField(a, b, 1) && SameField(a, b, 2) && SameField(a, b, 3) && SameField(a, b, 4);
    assert SameField(a, b, 5) && SameField(a, b, 6) && SameField(a, b, 7) && SameField(a, b, 8) && SameField(a, b, 9);
  }

  lemma SavedLinePlain(s: State, field: nat)
    requires IsState(s) && field < FIELDS
    ensures SavedLine(s, field) != [] && NoSpace(SavedLine(s, field))
  {
    AssignTakesField(s, s, field);
    KeyPlain(field);
  }

  lemma LinesCons(line: string, rest: string)
    requires NoSpace(line)
    ensures Lines(line + ['\n'] + rest) == [line] + Lines(rest)
  {
    forall i | 0 <= i < |line| ensures line[i] != '\n' && line[i] != '\r' {
      assert !IsSpace(line[i]);
    }
    IndexOfAfter(line, '\n', rest);
    var text := line + ['\n'] + rest;
    assert text[..|line|] == line && text[|line| + 1..] == rest;
    if |line| > 0 {
      assert text[|line| - 1] == line[|line| - 1];
    }
  }

  lemma {:induction false} LinesOfUnlines(lines: seq<string>)
    requires forall i :: 0 <= i < |lines| ==> NoSpace(lines[i])
    ensures Lines(Unlines(lines)) == lines
  {
    if lines != [] {
      LinesCons(lines[0], Unlines(lines[1..]));
      LinesOfUnlines(lines[1..]);
    }
  }

  /** The file that is saved for a state loads as that state. */
  lemma SaveLoad(s: State)
    requires IsState(s)
    ensures ParseText(SavedText(s)) == s
  {
    SavedLinesPlain(s);
    LinesOfUnlines(SavedLines(s));
    AnyOrderParses(s, SavedLines(s));
  }

  lemma SavedLinesPlain(s: State)
    requires IsState(s)
    ensures var lines := SavedLines(s);
            && (forall i :: 0 <= i < |lines| ==> NoSpace(lines[i])) && AllKnown(s, lines)
            && (forall f :: 0 <= f < FIELDS ==> SavedLine(s, f) in lines)
  {
    var lines := SavedLines(s);
    forall f | 0 <= f < FIELDS ensures NoSpace(lines[f]) && SavedLine(s, f) in lines {
      SavedLinePlain(s, f);
      assert lines[f] == SavedLine(s, f);
    }
  }

  // ---------- the running program ----------

  method Save(s: State) returns (text: string)
    ensures text == SavedText(s)
    ensures IsState(s) ==> ParseText(text) == s
  {
    text := "";
    ghost var lines := SavedLines(s);
    assert lines[0..] == lines;
    for field := 0 to FIELDS
      invariant text + Unlines(lines[field..]) == Unlines(lines)
    {
      var line := SavedLine(s, field);
      assert lines[field..][0] == line && lines[field..][1..] == lines[field + 1..];
      AppendLine(text, line, Unlines(lines[field + 1..]));
      text := text + line;
      text := text + ['\n'];
    }
    assert text + [] == text;
    if IsState(s) {
      SaveLoad(s);
    }
  }

  lemma AppendLine(text: string, line: string, rest: string)
    ensures text + (line + ['\n'] + rest) == text + line + ['\n'] + rest
  {
  }

  method Load(text: string) returns (state: State)
    ensures state == ParseText(text)
  {
    state := DEFAULT;
    var lines := Lines(text);
    for i := 0 to |lines|
      invariant state == ParseLines(DEFAULT, lines[..i])
    {
      assert lines[..i + 1][..i] == lines[..i];
      state := ApplyLine(state, lines[i]);
    }
    assert lines[..|lines|] == lines;
  }
}
