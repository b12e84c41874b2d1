/**
 * The end-of-game score tables: the local table kept in `scores.txt` as
 * `name:score` lines, the online table received as a `HISCORES` message,
 * and the placement of the finished game's score into either table when it
 * beats one of the ten entries.
 */
module ScoreTable {
  import opened Optional
  import opened Strings
  import opened Ranking

  // ---------------------------------------------------------------------
  // The scores file: one `name:score` line per entry

  /** The characters `readLine` ends a line at; no line it returns holds one. */
  const LineBreaks: set<char> := {'\n', '\r'}

  /** A line `readLine` can return whose `split(":")` yields a name and a number. */
  predicate WellFormedLine(line: string) {
    var parts := SplitChar(line, ':');
    FreeOf(line, LineBreaks) && |parts| >= 2 && ParseInt(parts[1]).Some?
  }

  /** `new Pair<>(split[0], Integer.valueOf(split[1]))`; any further fields are ignored. */
  function LineEntry(line: string): Entry
    requires WellFormedLine(line)
  {
    var parts := SplitChar(line, ':');
    Entry(parts[0], ParseInt(parts[1]).value)
  }

  /** `key + ":" + value`. */
  function FormatLine(e: Entry): string {
    e.name + ":" + IntToString(e.score)
  }

  /** A name that survives the line format: it holds no colon and no line break. */
  predicate StorableEntry(e: Entry) {
    FreeOf(e.name, {':', '\n', '\r'}) && IsInt32(e.score)
  }

  /** Reading back a written line gives the entry that was written. */
  lemma LineRoundTrip(e: Entry)
    requires StorableEntry(e)
    ensures WellFormedLine(FormatLine(e))
    ensures LineEntry(FormatLine(e)) == e
  {
    var digits := IntToString(e.score);
    IntToStringPlain(e.score, {':', '\n', '\r'});
    assert FreeOf(e.name, {':'});
    SplitCharPair(e.name, ':', digits);
    assert FormatLine(e) == e.name + [':'] + digits;
    FreeOfConcat(e.name, [':'], LineBreaks);
    FreeOfConcat(e.name + [':'], digits, LineBreaks);
    ParseIntToString(e.score);
  }

  predicate WellFormedFile(lines: seq<string>) {
    forall i | 0 <= i < |lines| :: WellFormedLine(lines[i])
  }

  /**
   * How many leading lines `loadScores` reads before one that does not
   * split into a name and a number makes it throw; all of them when none does.
   */
  function ReadablePrefix(lines: seq<string>): (n: nat)
    ensures n <= |lines| && WellFormedFile(lines[..n])
    ensures n < |lines| ==> !WellFormedLine(lines[n])
    ensures n == |lines| <==> WellFormedFile(lines)
  {
    var n := ReadableFrom(lines, 0);
    assert forall k | 0 <= k < n :: lines[..n][k] == lines[k];
    n
  }

  /** Reading on from line `i`: the index of the first line at or after it that does not read. */
  function ReadableFrom(lines: seq<string>, i: nat): (n: nat)
    requires i <= |lines|
    ensures i <= n <= |lines|
    ensures forall k | i <= k < n :: WellFormedLine(lines[k])
    ensures n < |lines| ==> !WellFormedLine(lines[n])
    decreases |lines| - i
  {
    if i == |lines| || !WellFormedLine(lines[i]) then i else ReadableFrom(lines, i + 1)
  }

  /** The entries of the lines of a file, in file order. */
  function FileEntries(lines: seq<string>): (r: seq<Entry>)
    requires WellFormedFile(lines)
    ensures |r| == |lines|
  {
    if lines == [] then []
    else FileEntries(lines[..|lines| - 1]) + [LineEntry(lines[|lines| - 1])]
  }

  /** The lines `writeScores` writes for `table`, in table order. */
  function FileLines(table: seq<Entry>): (r: seq<string>)
    ensures |r| == |table|
  {
    if table == [] then []
    else FileLines(table[..|table| - 1]) + [FormatLine(table[|table| - 1])]
  }

  lemma LastSplit<T>(s: seq<T>)
    requires s != []
    ensures s[..|s| - 1] + [s[|s| - 1]] == s
  {
  }

  /** A file read one more line on. */
  lemma FileEntriesSnoc(lines: seq<string>, line: string)
    requires WellFormedFile(lines) && WellFormedLine(line)
    ensures WellFormedFile(lines + [line])
    ensures FileEntries(lines + [line]) == FileEntries(lines) + [LineEntry(line)]
  {
    assert (lines + [line])[..|lines|] == lines;
  }

  /** The entries of the first `i + 1` lines of a file, when line `i` reads. */
  lemma FileEntriesNext(lines: seq<string>, i: nat)
    requires i < |lines| && WellFormedFile(lines[..i]) && WellFormedLine(lines[i])
    ensures WellFormedFile(lines[..i + 1])
    ensures FileEntries(lines[..i + 1]) == FileEntries(lines[..i]) + [LineEntry(lines[i])]
  {
    assert lines[..i + 1] == lines[..i] + [lines[i]];
    FileEntriesSnoc(lines[..i], lines[i]);
  }

  /** Writing a table of storable entries and reading the file back gives the same table. */
  lemma {:induction false} FileRoundTrip(table: seq<Entry>)
    requires forall i | 0 <= i < |table| :: StorableEntry(table[i])
    ensures WellFormedFile(FileLines(table))
    ensures FileEntries(FileLines(table)) == table
  {
    if table != [] {
      var init := table[..|table| - 1];
      var last := table[|table| - 1];
      var front := FileLines(init);
      var line := FormatLine(last);
      assert forall i | 0 <= i < |init| :: init[i] == table[i];
      FileRoundTrip(init);
      LineRoundTrip(last);
      FileEntriesSnoc(front, line);
      assert FileLines(table) == front + [line];
      assert FileEntries(front + [line]) == init + [last];
      LastSplit(table);
    }
  }

  /** The ten lines `test:0` .. `test:9` written when there is no file yet, first `n` of them. */
  function TestLines(n: nat): (r: seq<string>)
    ensures |r| == n
  {
    if n == 0 then [] else TestLines(n - 1) + ["test:" + IntToString(n - 1)]
  }

  /** The placeholder file reads as ten entries named `test` scoring 0 to 9. */
  lemma {:induction false} TestLinesEntries(n: nat)
    requires n <= 10
    ensures WellFormedFile(TestLines(n))
    ensures forall i | 0 <= i < n :: FileEntries(TestLines(n))[i] == Entry("test", i)
  {
    if n > 0 {
      TestLinesEntries(n - 1);
      var e := Entry("test", n - 1);
      assert FormatLine(e) == "test:" + IntToString(n - 1);
      LineRoundTrip(e);
      var lines := TestLines(n);
      assert lines[..n - 1] == TestLines(n - 1);
    }
  }

  // ---------------------------------------------------------------------
  // The HISCORES message: names and scores separated by runs of ':' and '\n'

  /** The tokens of a `HISCORES` message: the rest after "HISCORES ", split at runs of separators. */
  function HiscoresTokens(message: string): seq<string> {
    SplitRuns(ReplaceFirst(message, "HISCORES ", ""), FieldBreaks)
  }

  /** Tokens that pair up as (name, number): an even count, each second one a number. */
  predicate WellFormedPairs(ts: seq<string>)
    decreases |ts|
  {
    if ts == [] then true
    else |ts| >= 2 && ParseInt(ts[1]).Some? && WellFormedPairs(ts[2..])
  }

  /** The entries the draining loop adds, two tokens at a time from the head. */
  function Pairs(ts: seq<string>): (r: seq<Entry>)
    requires WellFormedPairs(ts)
    ensures |r| == |ts| / 2
    decreases |ts|
  {
    if ts == [] then []
    else [Entry(ts[0], ParseInt(ts[1]).value)] + Pairs(ts[2..])
  }

  /** Names and scores, alternately. */
  function Interleave(table: seq<Entry>): (r: seq<string>)
    ensures |r| == 2 * |table|
  {
    if table == [] then [] else [table[0].name, IntToString(table[0].score)] + Interleave(table[1..])
  }

  /** ':' after each name and '\n' after each score but the last. */
  function Separators(n: nat): (r: seq<char>)
    requires n >= 1
    ensures |r| == 2 * n - 1
    ensures forall i | 0 <= i < |r| :: r[i] in FieldBreaks
  {
    if n == 1 then [':'] else [':', '\n'] + Separators(n - 1)
  }

  /** A `HISCORES` message listing `table` as `name:score` lines. */
  function HiscoresMessage(table: seq<Entry>): string
    requires table != []
  {
    "HISCORES " + Join(Interleave(table), Separators(|table|))
  }

  /** A name the message format carries intact: non-empty, without ':' or '\n'. */
  predicate SendableEntry(e: Entry) {
    e.name != [] && FreeOf(e.name, FieldBreaks) && IsInt32(e.score)
  }

  lemma {:induction false} PairsInterleave(table: seq<Entry>)
    requires forall i | 0 <= i < |table| :: IsInt32(table[i].score)
    ensures WellFormedPairs(Interleave(table))
    ensures Pairs(Interleave(table)) == table
  {
    if table != [] {
      PairsInterleave(table[1..]);
      ParseIntToString(table[0].score);
      var ts := Interleave(table);
      assert ts[2..] == Interleave(table[1..]);
    }
  }

  lemma {:induction false} InterleavePlain(table: seq<Entry>)
    requires forall i | 0 <= i < |table| :: SendableEntry(table[i])
    ensures PlainTokens(Interleave(table), FieldBreaks)
  {
    if table != [] {
      InterleavePlain(table[1..]);
      IntToStringPlain(table[0].score, FieldBreaks);
      var ts := Interleave(table);
      forall i | 0 <= i < |ts|
        ensures ts[i] != [] && FreeOf(ts[i], FieldBreaks)
      {
        if i >= 2 {
          assert ts[i] == Interleave(table[1..])[i - 2];
        }
      }
    }
  }

  /** A `HISCORES` message listing sendable entries is acted on and parses back to them. */
  lemma HiscoresRoundTrip(table: seq<Entry>)
    requires table != []
    requires forall i | 0 <= i < |table| :: SendableEntry(table[i])
    ensures Contains(HiscoresMessage(table), "HISCORES")
    ensures WellFormedPairs(HiscoresTokens(HiscoresMessage(table)))
    ensures Pairs(HiscoresTokens(HiscoresMessage(table))) == table
  {
    var ts := Interleave(table);
    InterleavePlain(table);
    TaggedTokens("HISCORES ", "HISCORES", ts, Separators(|table|));
    PairsInterleave(table);
  }

  // ---------------------------------------------------------------------
  // The HISCORE message a new online score is sent with

  /** `"HISCORE <" + name + ">:<" + score + ">"`, angle brackets included. */
  function HiscoreMessage(name: string, score: int): string {
    "HISCORE <" + name + ">:<" + IntToString(score) + ">"
  }

  /** Reads a `HISCORE` message: the name runs up to the first ">:<". */
  function ParseHiscore(message: string): Option<Entry> {
    if |message| < 10 || message[..9] != "HISCORE <" || message[|message| - 1] != '>' then None
    else ParseFields(message[9..|message| - 1])
  }

  /** The text between the angle brackets: the name up to the first ">:<", then the score. */
  function ParseFields(inner: string): Option<Entry> {
    match IndexOf(inner, ">:<")
    case None => None
    case Some(k) =>
      match ParseInt(inner[k + 3..])
      case None => None
      case Some(score) => Some(Entry(inner[..k], score))
  }

  /** A name without '>' and a 32-bit score are read back from the message sent for them. */
  lemma HiscoreRoundTrip(name: string, score: int)
    requires FreeOf(name, {'>'}) && IsInt32(score)
    ensures ParseHiscore(HiscoreMessage(name, score)) == Some(Entry(name, score))
  {
    var inner := name + ">:<" + IntToString(score);
    assert HiscoreMessage(name, score) == "HISCORE <" + inner + ">";
    Unwrap(inner);
    FieldsRoundTrip(name, score);
  }

  /** The brackets around the fields are stripped and the fields parsed. */
  lemma Unwrap(inner: string)
    requires |inner| >= 1
    ensures ParseHiscore("HISCORE <" + inner + ">") == ParseFields(inner)
  {
    var message := "HISCORE <" + inner + ">";
    assert message[..9] == "HISCORE <";
    assert message[9..|message| - 1] == inner;
  }

  lemma FieldsRoundTrip(name: string, score: int)
    requires FreeOf(name, {'>'}) && IsInt32(score)
    ensures ParseFields(name + ">:<" + IntToString(score)) == Some(Entry(name, score))
  {
    var digits := IntToString(score);
    var inner := name + ">:<" + digits;
    FirstMarker(name, digits);
    assert inner[..|name|] == name;
    assert inner[|name| + 3..] == digits;
    ParseIntToString(score);
  }

  /** The first ">:<" after a name free of '>' is the one right after the name. */
  lemma FirstMarker(name: string, rest: string)
    requires FreeOf(name, {'>'})
    ensures IndexOf(name + ">:<" + rest, ">:<") == Some(|name|)
  {
    var inner := name + ">:<" + rest;
    assert inner[|name|..|name| + 3] == ">:<";
    assert OccursAt(inner, ">:<", |name|);
    forall j | 0 <= j < |name|
      ensures !OccursAt(inner, ">:<", j)
    {
      assert inner[j] == name[j];
    }
  }

  // ---------------------------------------------------------------------
  // Placing a new score into a table of ten

  /** `remove(9)` followed by `add(k, e)`. */
  function PlaceAt(table: seq<Entry>, k: int, e: Entry): (r: seq<Entry>)
    requires |table| >= 10 && 0 <= k <= |table| - 1
    ensures |r| == |table|
  {
    var removed := table[..9] + table[10..];
    removed[..k] + [e] + removed[k..]
  }

  /**
   * A score that beats at least one of ten entries in non-increasing order
   * takes position `10 - Below(table, score)`: the entries above it stay in
   * place, the lowest entry drops out, and the table stays ten long and in
   * order.
   */
  lemma TopTenPlacement(table: seq<Entry>, name: string, score: int)
    requires |table| == 10 && NonIncreasing(table) && Below(table, score) >= 1
    ensures var k := 10 - Below(table, score);
      var r := PlaceAt(table, k, Entry(name, score));
      && |r| == 10
      && NonIncreasing(r)
      && r[k] == Entry(name, score)
      && (forall i | 0 <= i < k :: r[i] == table[i] && r[i].score >= score)
      && (forall i | k < i < 10 :: r[i] == table[i - 1] && r[i].score < score)
      && multiset(r) == multiset(table) - multiset{table[9]} + multiset{Entry(name, score)}
  {
    var k := 10 - Below(table, score);
    var e := Entry(name, score);
    BelowIsSuffix(table, score);
    PlaceAtTen(table, k, e);
    var r := PlaceAt(table, k, e);
    forall i | 0 <= i < k
      ensures r[i].score >= score
    {
    }
    forall i | k < i < 10
      ensures r[i].score < score
    {
    }
  }

  /** In a table of ten, `PlaceAt` shifts the entries from `k` down by one and drops the last. */
  lemma PlaceAtTen(table: seq<Entry>, k: int, e: Entry)
    requires |table| == 10 && 0 <= k <= 9
    ensures var r := PlaceAt(table, k, e);
      && r == table[..k] + [e] + table[k..9]
      && r[k] == e
      && (forall i | 0 <= i < k :: r[i] == table[i])
      && (forall i | k < i < 10 :: r[i] == table[i - 1])
      && multiset(r) == multiset(table) - multiset{table[9]} + multiset{e}
  {
    assert table[..9] + table[10..] == table[..9];
    assert table == table[..k] + table[k..9] + [table[9]];
  }

  /**
   * Counts the entries of `table` that score strictly below `score`; by
   * `BelowIsSuffix` they are the last ones of a non-increasing table.
   */
  method CountBelow(table: seq<Entry>, score: int) returns (index: nat)
    ensures index == Below(table, score)
  {
    index := 0;
    for i := 0 to |table|
      invariant index == Below(table[..i], score)
    {
      assert table[..i + 1][..i] == table[..i];
      if score > table[i].score {
        index := index + 1;
      }
    }
    assert table[..|table|] == table;
  }

  /** The slot a pending name will be placed in: `10 - index`, or none when nothing was beaten. */
  function Slot(index: nat): (r: Option<int>)
    ensures r.None? <==> index == 0
  {
    if index != 0 then Some(10 - index) else None
  }

  /**
   * `scores.txt` as the scene finds it: absent, present but not readable
   * (`loadScores` skips it, `writeScores` still replaces it), or readable
   * with its lines.
   */
  datatype ScoresFile = Missing | Unreadable | Readable(lines: seq<string>)

  class ScoresScene {
    /** The finished game's score. */
    const finalScore: int
    var localScores: seq<Entry>
    var remoteScores: seq<Entry>
    /** `scores.txt`: missing, unreadable, or readable with its lines. */
    var scoresFile: ScoresFile
    /** Every message sent to the server so far, oldest first. */
    var sent: seq<string>
    /** Where the name being entered will go in the local table, while the name field is shown. */
    var localSlot: Option<int>
    /** Likewise for the online table. */
    var onlineSlot: Option<int>

    constructor (finalScore: int, scoresFile: ScoresFile)
      ensures this.finalScore == finalScore && this.scoresFile == scoresFile
      ensures localScores == [] && remoteScores == [] && sent == []
      ensures localSlot == None && onlineSlot == None
    {
      this.finalScore := finalScore;
      this.scoresFile := scoresFile;
      localScores := [];
      remoteScores := [];
      sent := [];
      localSlot := None;
      onlineSlot := None;
    }

    /**
     * Appends every entry of the file, in file order, and then orders the
     * whole list by descending score; without a readable file nothing changes. A
     * line that does not read as a name and a number throws: `loaded` is
     * false, and the entries read before it stay appended, unsorted.
     */
    method LoadScores() returns (loaded: bool)
      modifies this`localScores
      ensures loaded == (!scoresFile.Readable? || WellFormedFile(scoresFile.lines))
      ensures !scoresFile.Readable? ==> localScores == old(localScores)
      ensures scoresFile.Readable? && loaded ==>
        localScores == SortDescending(old(localScores) + FileEntries(scoresFile.lines))
      ensures scoresFile.Readable? && loaded ==> NonIncreasing(localScores)
      ensures scoresFile.Readable? && !loaded ==>
        localScores == old(localScores) + FileEntries(scoresFile.lines[..ReadablePrefix(scoresFile.lines)])
    {
      if scoresFile.Readable? {
        var lines := scoresFile.lines;
        var read := ReadLines(lines);
        if read < |lines| {
          return false;
        }
        assert lines[..read] == lines;
        localScores := SortDescending(localScores);
      }
      loaded := true;
    }

    /**
     * The reading loop of `loadScores`: appends the entry of each line in
     * file order and stops at the first line that does not read.
     */
    method ReadLines(lines: seq<string>) returns (read: nat)
      modifies this`localScores
      ensures read == ReadablePrefix(lines)
      ensures localScores == old(localScores) + FileEntries(lines[..read])
    {
      read := 0;
      while read < |lines|
        invariant read <= |lines| && WellFormedFile(lines[..read])
        invariant ReadablePrefix(lines) == ReadableFrom(lines, read)
        invariant localScores == old(localScores) + FileEntries(lines[..read])
      {
        var line := lines[read];
        if !WellFormedLine(line) {
          return;
        }
        FileEntriesNext(lines, read);
        localScores := localScores + [LineEntry(line)];
        read := read + 1;
      }
    }

    /**
     * Replaces an existing file, readable or not, with one line per local
     * entry, in list order; when there was no file, creates it with the ten
     * placeholder lines instead.
     */
    method WriteScores()
      modifies this`scoresFile
      ensures !old(scoresFile).Missing? ==> scoresFile == Readable(FileLines(localScores))
      ensures old(scoresFile).Missing? ==> scoresFile == Readable(TestLines(10))
    {
      var output: seq<string> := [];
      if !scoresFile.Missing? {
        var i := 0;
        while i < |localScores|
          invariant 0 <= i <= |localScores|
          invariant output == FileLines(localScores[..i])
        {
          assert localScores[..i + 1][..i] == localScores[..i];
          output := output + [FormatLine(localScores[i])];
          i := i + 1;
        }
        assert localScores[..i] == localScores;
      } else {
        for i := 0 to 10
          invariant output == TestLines(i)
        {
          output := output + ["test:" + IntToString(i)];
        }
      }
      scoresFile := Readable(output);
    }

    /** Asks the server for the online table. */
    method LoadOnlineScores()
      modifies this`sent
      ensures sent == old(sent) + ["HISCORES"]
    {
      sent := sent + ["HISCORES"];
    }

    /**
     * A message mentioning "HISCORES" appends its (name, score) pairs to the
     * online table in message order; any other message is ignored.
     */
    method ReceiveCommunication(message: string)
      requires Contains(message, "HISCORES") ==> WellFormedPairs(HiscoresTokens(message))
      modifies this`remoteScores
      ensures !Contains(message, "HISCORES") ==> remoteScores == old(remoteScores)
      ensures Contains(message, "HISCORES") ==> remoteScores == old(remoteScores) + Pairs(HiscoresTokens(message))
    {
      if Contains(message, "HISCORES") {
        var message1 := ReplaceFirst(message, "HISCORES ", "");
        var arrList := SplitRuns(message1, FieldBreaks);
        while arrList != []
          invariant WellFormedPairs(arrList)
          invariant remoteScores + Pairs(arrList) == old(remoteScores) + Pairs(HiscoresTokens(message))
          decreases |arrList|
        {
          var score := Entry(arrList[0], ParseInt(arrList[1]).value);
          remoteScores := remoteScores + [score];
          arrList := arrList[2..];
        }
      }
    }

    /** Sends the finished game's score under `name`. */
    method WriteOnlineScore(name: string)
      modifies this`sent
      ensures sent == old(sent) + [HiscoreMessage(name, finalScore)]
    {
      sent := sent + [HiscoreMessage(name, finalScore)];
    }

    /**
     * Loads the file and counts the local entries the score beats. A line
     * that throws while loading is caught, and the scene carries on with the
     * entries read before it. When the score beats none, the table stays as
     * loaded and the file is rewritten from it, so a file with such a line
     * loses that line and every line after it; otherwise a name field is
     * offered for slot `10 - index`.
     */
    method DisplayLocalScores()
      modifies this`localScores, this`localSlot, this`scoresFile
      ensures !old(scoresFile).Readable? ==> localScores == old(localScores)
      ensures old(scoresFile).Readable? && WellFormedFile(old(scoresFile).lines) ==>
        localScores == SortDescending(old(localScores) + FileEntries(old(scoresFile).lines))
      ensures old(scoresFile).Readable? && !WellFormedFile(old(scoresFile).lines) ==>
        localScores == old(localScores) + FileEntries(old(scoresFile).lines[..ReadablePrefix(old(scoresFile).lines)])
      ensures localSlot == Slot(Below(localScores, finalScore))
      ensures localSlot.Some? ==> scoresFile == old(scoresFile)
      ensures localSlot.None? && !old(scoresFile).Missing? ==> scoresFile == Readable(FileLines(localScores))
      ensures localSlot.None? && old(scoresFile).Missing? ==> scoresFile == Readable(TestLines(10))
    {
      var loaded := LoadScores();
      var index := CountBelow(localScores, finalScore);
      localSlot := Slot(index);
      if index == 0 {
        WriteScores();
      }
    }

    /**
     * The name is entered: the lowest local entry drops out, the new one
     * takes its slot, and the file is rewritten.
     */
    method EnterLocalName(name: string)
      requires localSlot.Some? && |localScores| >= 10 && 0 <= localSlot.value <= |localScores| - 1
      modifies this`localScores, this`localSlot, this`scoresFile
      ensures localScores == PlaceAt(old(localScores), old(localSlot).value, Entry(name, finalScore))
      ensures localSlot == None
      ensures !old(scoresFile).Missing? ==> scoresFile == Readable(FileLines(localScores))
      ensures old(scoresFile).Missing? ==> scoresFile == Readable(TestLines(10))
    {
      var finalIndex := localSlot.value;
      localScores := PlaceAt(localScores, finalIndex, Entry(name, finalScore));
      localSlot := None;
      WriteScores();
    }

    /** Counts the online entries the score beats and offers a name field when it beats any. */
    method DisplayOnlineScores()
      modifies this`onlineSlot
      ensures onlineSlot == Slot(Below(remoteScores, finalScore))
    {
      var onlineIndex := CountBelow(remoteScores, finalScore);
      onlineSlot := Slot(onlineIndex);
    }

    /**
     * The online name is entered: the score is sent, then placed into the
     * online table as into the local one.
     */
    method EnterOnlineName(name: string)
      requires onlineSlot.Some? && |remoteScores| >= 10 && 0 <= onlineSlot.value <= |remoteScores| - 1
      modifies this`remoteScores, this`onlineSlot, this`sent
      ensures sent == old(sent) + [HiscoreMessage(name, finalScore)]
      ensures remoteScores == PlaceAt(old(remoteScores), old(onlineSlot).value, Entry(name, finalScore))
      ensures onlineSlot == None
    {
      WriteOnlineScore(name);
      var finalIndex := onlineSlot.value;
      remoteScores := PlaceAt(remoteScores, finalIndex, Entry(name, finalScore));
      onlineSlot := None;
    }
  }
}
