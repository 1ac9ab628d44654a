/** The history file as octets: what an append that is cut short leaves, and what
that does to the next one. How an event is written as JSON is a parameter. */
module HistoryOctets {
  import opened Wrappers
  import opened Text
  import opened History

  datatype Codec = Codec(show: Event -> string, parse: string -> Option<Event>)

  /** What is assumed of an event: its text is one line and reads back. */
  ghost predicate Writes(codec: Codec, e: Event) {
    var text := codec.show(e);
    && text != [] && '\n' !in text && text[|text| - 1] != '\r' && Trim(text) != []
    && codec.parse(text) == Some(e)
  }

  // ---------- lines of a file ----------

  /** `BufRead::lines`: the pieces between newlines, the last one only if it is not
  empty, without a carriage return at the end. */
  function LinesOf(file: string): seq<string> {
    var pieces := Split(file, '\n');
    if pieces[|pieces| - 1] == [] then pieces[..|pieces| - 1] else pieces
  }

  function WithoutCr(line: string): string {
    if line != [] && line[|line| - 1] == '\r' then line[..|line| - 1] else line
  }

  /** A line that is blank or is no event is skipped. */
  function ReadLine(codec: Codec, line: string): Line {
    var text := WithoutCr(line);
    if Trim(text) == [] || codec.parse(text).None? then Skipped else Parsed(codec.parse(text).value)
  }

  /** The log that loading sees. */
  function LogOf(codec: Codec, file: string): seq<Line> {
    var lines := LinesOf(file);
    seq(|lines|, i requires 0 <= i < |lines| => ReadLine(codec, lines[i]))
  }

  function Appended(codec: Codec, file: string, e: Event): string {
    file + (codec.show(e) + ['\n'])
  }

  /** Empty, or ended by a newline. */
  predicate Clean(file: string) {
    file == [] || file[|file| - 1] == '\n'
  }

  /** The file up to its last newline, and what stands behind it. */
  function Torn(file: string): string {
    var pieces := Split(file, '\n');
    pieces[|pieces| - 1]
  }

  function Whole(file: string): string
    requires |Torn(file)| <= |file|
  {
    file[..|file| - |Torn(file)|]
  }

  /** A carriage return before the newline does not matter. */
  lemma CarriageReturnIgnored(codec: Codec, e: Event)
    requires Writes(codec, e)
    ensures ReadLine(codec, codec.show(e)) == ReadLine(codec, codec.show(e) + ['\r']) == Parsed(e)
  {
    var text := codec.show(e);
    assert (text + ['\r'])[..|text|] == text;
  }

  // ---------- splitting ----------

  lemma OnePiece(file: string)
    requires '\n' !in file
    ensures Split(file, '\n') == [file]
  {
    IndexOfAbsent(file, '\n');
  }

  /** The first line and the rest. */
  lemma FirstPiece(file: string) returns (first: string, rest: string)
    requires '\n' in file
    ensures file == first + ['\n'] + rest && |rest| < |file| && Split(file, '\n') == [first] + Split(rest, '\n')
    ensures '\n' !in first
  {
    var i := IndexOf(file, '\n');
    if i == |file| {
      assert false;
    }
    first, rest := file[..i], file[i + 1..];
    assert file == first + ['\n'] + rest;
    SplitCons(first, '\n', rest);
  }

  lemma Reassociate(a: string, b: string, c: string, d: string)
    ensures a + b + c + d == a + b + (c + d)
  {
  }

  ghost predicate LastIs(pieces: seq<string>, longer: seq<string>, x: string) {
    pieces != [] && longer == pieces[..|pieces| - 1] + [pieces[|pieces| - 1] + x]
  }

  lemma LastIsLater(first: string, pieces: seq<string>, longer: seq<string>, x: string)
    requires LastIs(pieces, longer, x)
    ensures LastIs([first] + pieces, [first] + longer, x)
  {
  }

  lemma {:induction false} SplitLonger(file: string, x: string)
    requires '\n' !in x
    ensures LastIs(Split(file, '\n'), Split(file + x, '\n'), x)
    decreases |file|
  {
    if '\n' !in file {
      OnePiece(file);
      OnePiece(file + x);
    } else {
      var first, rest := FirstPiece(file);
      Reassociate(first, ['\n'], rest, x);
      SplitCons(first, '\n', rest + x);
      SplitLonger(rest, x);
      LastIsLater(first, Split(rest, '\n'), Split(rest + x, '\n'), x);
    }
  }

  lemma {:induction false} SplitEnded(file: string)
    ensures Split(file + ['\n'], '\n') == Split(file, '\n') + [[]]
    decreases |file|
  {
    if '\n' !in file {
      OneEnded(file);
    } else {
      var first, rest := FirstPiece(file);
      SplitEnded(rest);
      EndedLater(first, rest, file, Split(rest, '\n'));
    }
  }

  lemma OneEnded(file: string)
    requires '\n' !in file
    ensures Split(file + ['\n'], '\n') == Split(file, '\n') + [[]]
  {
    OnePiece(file);
    OnePiece([]);
    SplitCons(file, '\n', []);
    assert file + ['\n'] + [] == file + ['\n'];
  }

  lemma EndedLater(first: string, rest: string, file: string, pieces: seq<string>)
    requires '\n' !in first && file == first + ['\n'] + rest
    requires Split(rest + ['\n'], '\n') == pieces + [[]]
    ensures Split(file + ['\n'], '\n') == [first] + pieces + [[]]
  {
    Reassociate(first, ['\n'], rest, ['\n']);
    SplitCons(first, '\n', rest + ['\n']);
  }

  /** What is torn stands at the end, has no newline, and what stands before it is
  clean. */
  lemma {:induction false} TornEnds(file: string) returns (whole: string)
    ensures '\n' !in Torn(file) && file == whole + Torn(file) && Clean(whole)
    decreases |file|
  {
    if '\n' !in file {
      AllTorn(file);
      whole := [];
    } else {
      var first, rest := FirstPiece(file);
      var later := TornEnds(rest);
      TornLater(first, rest, file);
      whole := first + ['\n'] + later;
      Reassociate(first, ['\n'], later, Torn(rest));
      CleanLater(first, later);
    }
  }

  lemma AllTorn(file: string)
    requires '\n' !in file
    ensures Torn(file) == file && [] + file == file && Clean([])
  {
    OnePiece(file);
  }

  lemma CleanLater(first: string, later: string)
    requires Clean(later)
    ensures Clean(first + ['\n'] + later)
  {
    var whole := first + ['\n'] + later;
    if later != [] {
      assert whole[|whole| - 1] == later[|later| - 1];
    }
  }

  lemma TornLater(first: string, rest: string, file: string)
    requires Split(file, '\n') == [first] + Split(rest, '\n')
    ensures Torn(file) == Torn(rest)
  {
  }

  lemma CleanIffNothingTorn(file: string)
    ensures |Torn(file)| <= |file| && (Torn(file) == [] <==> Clean(file)) && Clean(Whole(file)) && file == Whole(file) + Torn(file)
  {
    var whole := TornEnds(file);
    assert Whole(file) == whole;
    if Torn(file) != [] {
      assert file[|file| - 1] == Torn(file)[|Torn(file)| - 1];
    }
  }

  // ---------- appending ----------

  lemma AppendedLines(codec: Codec, file: string, e: Event)
    requires Writes(codec, e)
    ensures var p := Split(file, '\n'); LinesOf(Appended(codec, file, e)) == p[..|p| - 1] + [Torn(file) + codec.show(e)]
  {
    var longer := file + codec.show(e);
    SplitLonger(file, codec.show(e));
    SplitEnded(longer);
    assert longer + ['\n'] == Appended(codec, file, e);
    EndedLines(Appended(codec, file, e), Split(longer, '\n'));
  }

  lemma EndedLines(file: string, pieces: seq<string>)
    requires Split(file, '\n') == pieces + [[]]
    ensures LinesOf(file) == pieces
  {
  }

  lemma WholeLines(file: string)
    ensures |Torn(file)| <= |file|
    ensures var p := Split(file, '\n'); LinesOf(Whole(file)) == p[..|p| - 1]
  {
    CleanIffNothingTorn(file);
    var whole := Whole(file);
    CleanIffNothingTorn(whole);
    var _ := TornEnds(file);
    SplitLonger(whole, Torn(file));
    LastEmpty(Split(whole, '\n'), Split(file, '\n'), Torn(file), whole);
  }

  lemma LastEmpty(pieces: seq<string>, longer: seq<string>, x: string, whole: string)
    requires LastIs(pieces, longer, x) && pieces == Split(whole, '\n') && Torn(whole) == []
    ensures LinesOf(whole) == longer[..|longer| - 1]
  {
  }

  lemma LogSnoc(codec: Codec, a: string, b: string, line: string)
    requires LinesOf(b) == LinesOf(a) + [line]
    ensures LogOf(codec, b) == LogOf(codec, a) + [ReadLine(codec, line)]
  {
  }

  /** On a clean file an append adds its event; on a torn one it adds the torn text
  and its event as one line, whatever was readable of the torn text before. */
  lemma AppendReads(codec: Codec, file: string, e: Event)
    requires Writes(codec, e)
    ensures |Torn(file)| <= |file|
    ensures LogOf(codec, Appended(codec, file, e)) ==
            LogOf(codec, Whole(file)) + [ReadLine(codec, Torn(file) + codec.show(e))]
    ensures Clean(file) ==> LogOf(codec, Appended(codec, file, e)) == LogOf(codec, file) + [Parsed(e)]
  {
    AppendedLines(codec, file, e);
    WholeLines(file);
    LogSnoc(codec, Whole(file), Appended(codec, file, e), Torn(file) + codec.show(e));
    CleanIffNothingTorn(file);
    if Clean(file) {
      assert [] + codec.show(e) == codec.show(e) && Whole(file) == file;
    }
  }

  /** An appended event is read back, after all that was there, if and only if the
  file was empty or ended in a newline. On a torn file, where the torn text and the
  event behind it are no event, neither is in the log. */
  lemma ReadBackIff(codec: Codec, file: string, e: Event)
    requires Writes(codec, e)
    ensures Clean(file) <==> LogOf(codec, Appended(codec, file, e)) == LogOf(codec, file) + [Parsed(e)]
    ensures |Torn(file)| <= |file|
    ensures !Clean(file) && codec.parse(Torn(file) + codec.show(e)) == None ==>
              LogOf(codec, Appended(codec, file, e)) == LogOf(codec, Whole(file)) + [Skipped]
    ensures Clean(Appended(codec, file, e))
  {
    AppendReads(codec, file, e);
    CleanIffNothingTorn(file);
    if !Clean(file) {
      TornIsALine(codec, file);
      if codec.parse(Torn(file) + codec.show(e)) == None {
        GluedIsSkipped(codec, Torn(file), e);
      }
    }
  }

  /** Loading reads a torn text as a line of its own, until something is appended. */
  lemma TornIsALine(codec: Codec, file: string)
    requires Torn(file) != []
    ensures |Torn(file)| <= |file|
    ensures LogOf(codec, file) == LogOf(codec, Whole(file)) + [ReadLine(codec, Torn(file))]
  {
    WholeLines(file);
    var p := Split(file, '\n');
    assert p == p[..|p| - 1] + [Torn(file)];
    LogSnoc(codec, Whole(file), file, Torn(file));
  }

  lemma GluedIsSkipped(codec: Codec, torn: string, e: Event)
    requires Writes(codec, e) && codec.parse(torn + codec.show(e)) == None
    ensures ReadLine(codec, torn + codec.show(e)) == Skipped
  {
    var glued, text := torn + codec.show(e), codec.show(e);
    assert glued[|glued| - 1] == text[|text| - 1];
    assert WithoutCr(glued) == glued;
  }

  // ---------- a stop inside an append ----------

  /** An append that stops after `n` octets leaves a clean file if and only if it
  wrote nothing or everything; so between those two the next event is lost, and
  with a newline missing this one as well. */
  lemma StoppedAppend(codec: Codec, file: string, e: Event, n: nat)
    requires Writes(codec, e) && Clean(file) && n <= |codec.show(e)| + 1
    ensures var left := file + (codec.show(e) + ['\n'])[..n];
            && (Clean(left) <==> n == 0 || n == |codec.show(e)| + 1)
            && (n <= |codec.show(e)| ==> Torn(left) == codec.show(e)[..n])
  {
    var text := codec.show(e);
    var left := file + (text + ['\n'])[..n];
    if n <= |text| {
      assert (text + ['\n'])[..n] == text[..n];
      CleanIffNothingTorn(file);
      SplitLonger(file, text[..n]);
      CleanIffNothingTorn(left);
    } else {
      assert left[|left| - 1] == '\n';
    }
  }

  /** Two events in a row, the first cut short: neither is in the log. */
  lemma BothLost(codec: Codec, file: string, first: Event, n: nat, second: Event)
    requires Writes(codec, first) && Writes(codec, second) && Clean(file) && 0 < n <= |codec.show(first)|
    requires codec.parse(codec.show(first)[..n] + codec.show(second)) == None
    ensures var left := file + (codec.show(first) + ['\n'])[..n];
            LogOf(codec, Appended(codec, left, second)) == LogOf(codec, file) + [Skipped]
  {
    var text := codec.show(first);
    var left := file + (text + ['\n'])[..n];
    StoppedAppend(codec, file, first, n);
    ReadBackIff(codec, left, second);
    CleanIffNothingTorn(left);
    assert (text + ['\n'])[..n] == text[..n];
    assert Whole(left) == file;
  }

  /** Whole appends are all read back, in order. */
  lemma {:induction false} WholeAppendsRead(codec: Codec, file: string, events: seq<Event>)
    requires Clean(file) && forall i :: 0 <= i < |events| ==> Writes(codec, events[i])
    ensures var end := AppendedAll(codec, file, events);
            Clean(end) && LogOf(codec, end) == LogOf(codec, file) + AllParsed(events)
    decreases |events|
  {
    if events != [] {
      var k := |events| - 1;
      WholeAppendsRead(codec, file, events[..k]);
      AppendsMore(codec, LogOf(codec, file), AppendedAll(codec, file, events[..k]), events);
    } else {
      NoneAppended(LogOf(codec, file));
    }
  }

  lemma NoneAppended(log: seq<Line>)
    ensures log + AllParsed([]) == log
  {
  }

  lemma AppendsMore(codec: Codec, log: seq<Line>, before: string, events: seq<Event>)
    requires events != [] && Clean(before) && Writes(codec, events[|events| - 1])
    requires LogOf(codec, before) == log + AllParsed(events[..|events| - 1])
    ensures var end := Appended(codec, before, events[|events| - 1]); Clean(end) && LogOf(codec, end) == log + AllParsed(events)
  {
    var last := events[|events| - 1];
    OneAppendReads(codec, before, last);
    ParsedMore(log, events);
  }

  lemma ParsedMore(log: seq<Line>, events: seq<Event>)
    requires events != []
    ensures log + AllParsed(events[..|events| - 1]) + [Parsed(events[|events| - 1])] == log + AllParsed(events)
  {
    Rejoin(log, AllParsed(events[..|events| - 1]), [Parsed(events[|events| - 1])]);
  }

  lemma Rejoin<T>(a: seq<T>, b: seq<T>, c: seq<T>)
    ensures a + b + c == a + (b + c)
  {
  }

  function AllParsed(events: seq<Event>): seq<Line> {
    if events == [] then [] else AllParsed(events[..|events| - 1]) + [Parsed(events[|events| - 1])]
  }

  lemma OneAppendReads(codec: Codec, file: string, e: Event)
    requires Clean(file) && Writes(codec, e)
    ensures var end := Appended(codec, file, e); Clean(end) && LogOf(codec, end) == LogOf(codec, file) + [Parsed(e)]
  {
    AppendReads(codec, file, e);
  }

  function AppendedAll(codec: Codec, file: string, events: seq<Event>): string {
    if events == [] then file
    else Appended(codec, AppendedAll(codec, file, events[..|events| - 1]), events[|events| - 1])
  }
}
