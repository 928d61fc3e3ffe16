/** log-size.py: each check of the target writes one tab-separated record
    `timestamp, path, bytes[, rate][, lines[, lines rate]]`, to stdout or
    appended to `--outfile`. Without `--watch`, the previous counts that the
    growth rates need are read back from that file's last record; with
    `--watch`, one run checks once per interval and takes them from its own
    previous check. `Columns` takes the previous counts as a parameter, so
    it covers both.

    File contents are given as a sequence of lines, each with its line
    terminator, as iterating over a text file yields them. The log is opened
    in universal-newline mode, so a line read from it ends in `\n` and never
    in `\r\n`; the `\r\n` case of `LineTerminatorIgnored` states only that
    the strip would cope with one. Numbers are
    written into a record as `str(n)` would write them. */
module LogSize {
  import opened PyText

  /** The counts of one record: `(timestamp, size_bytes, size_lines)`. */
  datatype LogRecord = LogRecord(timestamp: int, sizeBytes: int, sizeLines: Option<int>)

  /** The `ParseError` messages of `read_last_log`. */
  datatype LogError =
    | EmptyLog
    | BadTimestamp(text: string)
    | NoBytesColumn(columns: nat)
    | BadBytes(text: string)
    | BadLines(text: string)

  // -----------------------------------------------------------------------
  // read_last_log (log-size.py:142-171)
  // -----------------------------------------------------------------------

  /** `line_raw.rstrip('\r\n').split('\t')`. */
  function LineFields(line: string): (fields: seq<string>)
    ensures |fields| >= 1
  {
    Split(RStripNewline(line), '\t')
  }

  /** The parse of the last record's fields: column 0 is the timestamp,
      column 2 the byte count, and column 4, when there is one, the line
      count. */
  function ParseFields(fields: seq<string>): Result<LogRecord, LogError>
    requires |fields| >= 1
  {
    match ParseInt(fields[0])
    case None => Err(BadTimestamp(fields[0]))
    case Some(timestamp) =>
      if |fields| <= 2 then Err(NoBytesColumn(|fields|))
      else
        match ParseInt(fields[2])
        case None => Err(BadBytes(fields[2]))
        case Some(sizeBytes) =>
          if |fields| <= 4 then Ok(LogRecord(timestamp, sizeBytes, None))
          else
            match ParseInt(fields[4])
            case None => Err(BadLines(fields[4]))
            case Some(sizeLines) => Ok(LogRecord(timestamp, sizeBytes, Some(sizeLines)))
  }

  /** What `read_last_log` returns or raises for a log with these lines. */
  function LastRecord(log: seq<string>): Result<LogRecord, LogError>
  {
    if log == [] then Err(EmptyLog) else ParseFields(LineFields(log[|log| - 1]))
  }

  /** log-size.py:142-171: the loop keeps the fields of every line in turn,
      so only the last one's survive, and those are then parsed. */
  method ReadLastLog(log: seq<string>) returns (r: Result<LogRecord, LogError>)
    ensures r == LastRecord(log)
  {
    var empty := true;
    var fields: seq<string> := [];
    for i := 0 to |log|
      invariant empty <==> i == 0
      invariant !empty ==> fields == LineFields(log[i - 1])
    {
      fields := Split(RStripNewline(log[i]), '\t');
      empty := false;
    }
    if empty {
      return Err(EmptyLog);
    }
    r := ParseFields(fields);
  }

  /** An empty log is an error. */
  lemma EmptyLogFails()
    ensures LastRecord([]) == Err(EmptyLog)
  {
  }

  /** Only the last line matters. */
  lemma OnlyLastLine(earlier: seq<string>, other: seq<string>, line: string)
    ensures LastRecord(earlier + [line]) == LastRecord(other + [line])
  {
    LastLineRead(earlier, line);
    LastLineRead(other, line);
  }

  /** The last line's terminator, `\n` or `\r\n`, does not matter. */
  lemma LineTerminatorIgnored(earlier: seq<string>, line: string)
    ensures LastRecord(earlier + [line + "\r\n"]) == LastRecord(earlier + [line])
    ensures LastRecord(earlier + [line + "\n"]) == LastRecord(earlier + [line])
  {
    TerminatorIgnored(earlier, line, "\r\n");
    TerminatorIgnored(earlier, line, "\n");
  }

  lemma TerminatorIgnored(earlier: seq<string>, line: string, breaks: string)
    requires forall i :: 0 <= i < |breaks| ==> IsLineBreak(breaks[i])
    ensures LastRecord(earlier + [line + breaks]) == LastRecord(earlier + [line])
  {
    RStripNewlineIgnoresBreaks(line, breaks);
    assert LineFields(line + breaks) == LineFields(line);
    LastLineRead(earlier, line);
    LastLineRead(earlier, line + breaks);
  }

  lemma LastLineRead(earlier: seq<string>, line: string)
    ensures LastRecord(earlier + [line]) == ParseFields(LineFields(line))
  {
    assert (earlier + [line])[|earlier|] == line;
  }

  lemma {:induction false} RStripNewlineIgnoresBreaks(s: string, breaks: string)
    requires forall i :: 0 <= i < |breaks| ==> IsLineBreak(breaks[i])
    ensures RStripNewline(s + breaks) == RStripNewline(s)
    decreases |breaks|
  {
    if breaks != [] {
      var front := breaks[..|breaks| - 1];
      var t := s + breaks;
      assert t[|t| - 1] == breaks[|breaks| - 1];
      assert t[..|t| - 1] == s + front;
      assert RStripNewline(t) == RStripNewline(s + front);
      RStripNewlineIgnoresBreaks(s, front);
    } else {
      assert s + breaks == s;
    }
  }

  /** Which lines parse, and to what: columns 0 and 2 must be integers,
      column 4 must be one when present, and columns 1 and 3 and anything
      after column 4 are never looked at. */
  lemma ParsedRecord(fields: seq<string>)
    requires |fields| >= 1
    ensures ParseFields(fields).Ok? <==>
      ParseInt(fields[0]).Some? && |fields| >= 3 && ParseInt(fields[2]).Some?
      && (|fields| >= 5 ==> ParseInt(fields[4]).Some?)
    ensures ParseFields(fields).Ok? ==>
      ParseFields(fields).value == LogRecord(ParseInt(fields[0]).value, ParseInt(fields[2]).value,
                                             if |fields| >= 5 then ParseInt(fields[4]) else None)
  {
  }

  /** The errors, in the order the code raises them. */
  lemma RecordErrors(fields: seq<string>)
    requires |fields| >= 1
    ensures ParseInt(fields[0]).None? ==> ParseFields(fields) == Err(BadTimestamp(fields[0]))
    ensures ParseInt(fields[0]).Some? && |fields| < 3 ==> ParseFields(fields) == Err(NoBytesColumn(|fields|))
    ensures ParseInt(fields[0]).Some? && |fields| >= 3 && ParseInt(fields[2]).None? ==>
      ParseFields(fields) == Err(BadBytes(fields[2]))
    ensures ParseInt(fields[0]).Some? && |fields| >= 5 && ParseInt(fields[2]).Some? && ParseInt(fields[4]).None? ==>
      ParseFields(fields) == Err(BadLines(fields[4]))
  {
  }

  /** Column 1 in a record of any length, column 3, and columns past 4 can
      hold anything. */
  lemma IgnoredColumns(fields: seq<string>, path: string, rate: string, extra: seq<string>)
    requires |fields| >= 1
    ensures |fields| >= 2 ==> ParseFields(fields[1 := path]) == ParseFields(fields)
    ensures |fields| >= 4 ==> ParseFields(fields[3 := rate]) == ParseFields(fields)
    ensures |fields| >= 4 ==>
              ParseFields(fields[1 := path][3 := rate] + extra) ==
              if |fields| >= 5 then ParseFields(fields) else ParseFields(fields + extra[..Min(|extra|, 1)])
  {
    if |fields| >= 4 {
      var f := fields[1 := path][3 := rate] + extra;
      assert f[0] == fields[0] && f[2] == fields[2];
      if |fields| == 4 && |extra| >= 1 {
        assert f[4] == (fields + extra[..1])[4];
      }
    }
  }

  // -----------------------------------------------------------------------
  // The record main writes (log-size.py:94-125, joined at line 132)
  // -----------------------------------------------------------------------

  /** `last_timestamp and last_timestamp != timestamp`: a previous record
      with a non-zero timestamp other than the current one. */
  predicate HasRate(last: Option<LogRecord>, timestamp: int)
  {
    last.Some? && last.value.timestamp != 0 && last.value.timestamp != timestamp
  }

  /** Column 1: the target path as given, or `.` with `--no-path`. */
  function PathColumn(showPath: bool, target: string): string
  {
    if showPath then target else "."
  }

  /** The columns of a record: timestamp, the path (or `.` with
      `--no-path`) and the byte count; then without `--lines` the bytes
      rate when there is one; with `--lines` the bytes rate or `.`, the
      line count, and the lines rate when both line counts are known.
      `sizeLines` is `None` exactly when `--lines` is not given; the rates
      are the already formatted `:0.5f` texts. */
  function Columns(timestamp: int, showPath: bool, target: string, sizeBytes: int, sizeLines: Option<int>,
                   last: Option<LogRecord>, bytesRate: string, linesRate: string): seq<string>
  {
    var rate := HasRate(last, timestamp);
    [IntToString(timestamp), PathColumn(showPath, target), IntToString(sizeBytes)]
    + match sizeLines
      case None => if rate then [bytesRate] else []
      case Some(lines) =>
        [if rate then bytesRate else ".", IntToString(lines)]
        + if rate && last.value.sizeLines.Some? then [linesRate] else []
  }

  /** log-size.py:94-125 statement by statement: `fields` grows by
      `append`/`extend`, and the bytes rate is appended or written over
      the `.` at index 3 according to the current length. */
  method AssembleFields(timestamp: int, showPath: bool, target: string, sizeBytes: int,
                        sizeLines: Option<int>, last: Option<LogRecord>, bytesRate: string, linesRate: string)
    returns (fields: seq<string>)
    ensures fields == Columns(timestamp, showPath, target, sizeBytes, sizeLines, last, bytesRate, linesRate)
  {
    fields := [];
    fields := fields + [IntToString(timestamp)];
    if showPath {
      fields := fields + [target];
    } else {
      fields := fields + ["."];
    }
    assert fields == [IntToString(timestamp), PathColumn(showPath, target)];
    if sizeLines.Some? {
      fields := fields + [IntToString(sizeBytes), ".", IntToString(sizeLines.value)];
    } else {
      fields := fields + [IntToString(sizeBytes)];
    }
    assert fields[..3] == [IntToString(timestamp), PathColumn(showPath, target), IntToString(sizeBytes)];
    assert |fields| == if sizeLines.Some? then 5 else 3;
    if last.Some? && last.value.timestamp != 0 && last.value.timestamp != timestamp {
      if |fields| == 3 {
        fields := fields + [bytesRate];
      } else if |fields| == 5 {
        fields := fields[3 := bytesRate];
      }
      if sizeLines.Some? && last.value.sizeLines.Some? {
        if |fields| == 5 {
          fields := fields + [linesRate];
        }
      }
    }
  }

  /** Three or four columns without `--lines`, five or six with it; column
      3 is `.` exactly when `--lines` is given and there is no rate. */
  lemma ColumnLayout(timestamp: int, showPath: bool, target: string, sizeBytes: int, sizeLines: Option<int>,
                     last: Option<LogRecord>, bytesRate: string, linesRate: string)
    ensures var c := Columns(timestamp, showPath, target, sizeBytes, sizeLines, last, bytesRate, linesRate);
      var rate := HasRate(last, timestamp);
      && |c| == (if sizeLines.None? then 3 else 5) + (if rate && (sizeLines.None? || last.value.sizeLines.Some?) then 1 else 0)
      && c[0] == IntToString(timestamp) && c[1] == PathColumn(showPath, target) && c[2] == IntToString(sizeBytes)
      && (rate && sizeLines.None? ==> c[3] == bytesRate)
      && (sizeLines.Some? ==> c[3] == (if rate then bytesRate else ".") && c[4] == IntToString(sizeLines.value))
      && (|c| == 6 ==> c[5] == linesRate)
  {
  }

  predicate NoTabOrBreak(s: string)
  {
    forall i :: 0 <= i < |s| ==> s[i] != '\t' && !IsLineBreak(s[i])
  }

  /** A record written by `print(*fields, sep='\t')` and appended to the log
      reads back as `(timestamp, size_bytes, size_lines)`, provided the rate
      texts, and the path when it is written, hold no tab or line break. */
  lemma RecordRoundTrip(earlier: seq<string>, timestamp: int, showPath: bool, target: string, sizeBytes: int,
                        sizeLines: Option<int>, last: Option<LogRecord>, bytesRate: string, linesRate: string)
    requires showPath ==> NoTabOrBreak(target)
    requires NoTabOrBreak(bytesRate) && NoTabOrBreak(linesRate)
    requires bytesRate != [] && linesRate != []
    ensures var c := Columns(timestamp, showPath, target, sizeBytes, sizeLines, last, bytesRate, linesRate);
      LastRecord(earlier + [Join(c, '\t') + "\n"]) == Ok(LogRecord(timestamp, sizeBytes, sizeLines))
  {
    var c := Columns(timestamp, showPath, target, sizeBytes, sizeLines, last, bytesRate, linesRate);
    ColumnLayout(timestamp, showPath, target, sizeBytes, sizeLines, last, bytesRate, linesRate);
    forall i | 0 <= i < |c|
      ensures NoTabOrBreak(c[i])
    {
    }
    WrittenLineRead(earlier, c);
    ParseIntToString(timestamp);
    ParseIntToString(sizeBytes);
    if sizeLines.Some? {
      ParseIntToString(sizeLines.value);
    }
  }

  /** The fields of a tab-joined line written with a final line feed are
      read back unchanged. */
  lemma WrittenLineRead(earlier: seq<string>, c: seq<string>)
    requires |c| >= 1 && c[|c| - 1] != []
    requires forall i :: 0 <= i < |c| ==> NoTabOrBreak(c[i])
    ensures LastRecord(earlier + [Join(c, '\t') + "\n"]) == ParseFields(c)
  {
    var line := Join(c, '\t');
    JoinEnd(c, '\t');
    RStripNewlineWritten(line);
    SplitJoin(c, '\t');
    LastLineRead(earlier, line + "\n");
  }

  /** A joined line ends with the last part's last character. */
  lemma {:induction false} JoinEnd(parts: seq<string>, sep: char)
    requires |parts| >= 1 && parts[|parts| - 1] != []
    ensures var s, p := Join(parts, sep), parts[|parts| - 1]; s != [] && s[|s| - 1] == p[|p| - 1]
  {
    if |parts| >= 2 {
      JoinSnoc(parts, sep);
    }
  }

  /** log-size.py:82-86: the previous counts come from the log's last
      record, and a `ParseError` leaves them unknown. */
  function PreviousCounts(log: seq<string>): Option<LogRecord>
  {
    match LastRecord(log)
    case Ok(record) => Some(record)
    case Err(_) => None
  }

  /** The next run after a record was appended finds a rate exactly when
      the earlier timestamp was non-zero and differs from its own. */
  lemma RateAfterAppend(earlier: seq<string>, timestamp: int, showPath: bool, target: string, sizeBytes: int,
                        sizeLines: Option<int>, last: Option<LogRecord>, bytesRate: string, linesRate: string,
                        nextTimestamp: int)
    requires showPath ==> NoTabOrBreak(target)
    requires NoTabOrBreak(bytesRate) && NoTabOrBreak(linesRate)
    requires bytesRate != [] && linesRate != []
    ensures var c := Columns(timestamp, showPath, target, sizeBytes, sizeLines, last, bytesRate, linesRate);
      HasRate(PreviousCounts(earlier + [Join(c, '\t') + "\n"]), nextTimestamp)
      <==> timestamp != 0 && timestamp != nextTimestamp
  {
    RecordRoundTrip(earlier, timestamp, showPath, target, sizeBytes, sizeLines, last, bytesRate, linesRate);
  }

  // -----------------------------------------------------------------------
  // Parsing wc's output (log-size.py:178-186)
  // -----------------------------------------------------------------------

  /** `(lines, words, bytes)` as `get_wc_size` returns them. */
  datatype WcCounts = WcCounts(lines: int, words: int, bytes: int)

  datatype WcError = WrongFieldCount(stdout: string) | BadWcInteger(stdout: string)

  /** `result.stdout.split()` unpacked into four fields, the first three
      converted with `int()`. */
  function ParseWc(stdout: string): Result<WcCounts, WcError>
  {
    var fields := Words(stdout);
    if |fields| != 4 then Err(WrongFieldCount(stdout))
    else
      match (ParseInt(fields[0]), ParseInt(fields[1]), ParseInt(fields[2]))
      case (Some(lines), Some(words), Some(bytes)) => Ok(WcCounts(lines, words, bytes))
      case _ => Err(BadWcInteger(stdout))
  }

  /** wc's line `  lines  words bytes path` parses back to the three counts
      when the path holds no whitespace. */
  lemma WcRoundTrip(sp0: string, sp1: string, sp2: string, sp3: string, lines: nat, words: nat, bytes: nat,
                    path: string, tail: string)
    requires sp1 != [] && sp2 != [] && sp3 != []
    requires AllSpace(sp0) && AllSpace(sp1) && AllSpace(sp2) && AllSpace(sp3) && AllSpace(tail)
    requires path != [] && NoSpace(path)
    ensures ParseWc(sp0 + IntToString(lines) + (sp1 + IntToString(words) + (sp2 + IntToString(bytes)
                    + (sp3 + path + tail)))) == Ok(WcCounts(lines, words, bytes))
  {
    var l, w, b := IntToString(lines), IntToString(words), IntToString(bytes);
    WcFields(sp0, l, sp1, w, sp2, b, sp3, path, tail);
    ParseIntToString(lines);
    ParseIntToString(words);
    ParseIntToString(bytes);
  }

  lemma WcFields(sp0: string, l: string, sp1: string, w: string, sp2: string, b: string, sp3: string,
                 path: string, tail: string)
    requires sp1 != [] && sp2 != [] && sp3 != []
    requires AllSpace(sp0) && AllSpace(sp1) && AllSpace(sp2) && AllSpace(sp3) && AllSpace(tail)
    requires l != [] && NoSpace(l) && w != [] && NoSpace(w) && b != [] && NoSpace(b)
    requires path != [] && NoSpace(path)
    ensures Words(sp0 + l + (sp1 + w + (sp2 + b + (sp3 + path + tail)))) == [l, w, b, path]
  {
    var r3 := sp3 + path + tail;
    var r2 := sp2 + b + r3;
    var r1 := sp1 + w + r2;
    WordsOfSpace(tail);
    WordsCons(sp3, path, tail);
    assert Words(r3) == [path];
    WordsCons(sp2, b, r3);
    assert Words(r2) == [b, path];
    WordsCons(sp1, w, r2);
    assert Words(r1) == [w, b, path];
    WordsCons(sp0, l, r1);
  }

  /** A path with whitespace in it gives wc five or more fields: the
      unpacking fails. */
  lemma WcPathWithSpace(sp0: string, sp1: string, sp2: string, sp3: string, lines: nat, words: nat, bytes: nat,
                        path1: string, gap: string, path2: string, tail: string)
    requires sp1 != [] && sp2 != [] && sp3 != [] && gap != []
    requires AllSpace(sp0) && AllSpace(sp1) && AllSpace(sp2) && AllSpace(sp3) && AllSpace(gap) && AllSpace(tail)
    requires path1 != [] && NoSpace(path1) && path2 != [] && NoSpace(path2)
    ensures var stdout := sp0 + IntToString(lines) + (sp1 + IntToString(words) + (sp2 + IntToString(bytes)
                          + (sp3 + path1 + (gap + path2 + tail))));
      ParseWc(stdout) == Err(WrongFieldCount(stdout))
  {
    var l, w, b := IntToString(lines), IntToString(words), IntToString(bytes);
    var r4 := gap + path2 + tail;
    var r3 := sp3 + path1 + r4;
    var r2 := sp2 + b + r3;
    var r1 := sp1 + w + r2;
    var s := sp0 + l + r1;
    WordsCons(sp0, l, r1);
    WordsCons(sp1, w, r2);
    WordsCons(sp2, b, r3);
    WordsCons(sp3, path1, r4);
    WordsCons(gap, path2, tail);
    assert |Words(s)| >= 5;
  }

  /** Four fields whose first three are integers are what succeeds; the
      fourth, the path, is never looked at. */
  lemma WcAccepted(stdout: string)
    ensures var f := Words(stdout);
      ParseWc(stdout).Ok? <==>
        |f| == 4 && ParseInt(f[0]).Some? && ParseInt(f[1]).Some? && ParseInt(f[2]).Some?
    ensures var f := Words(stdout);
      ParseWc(stdout).Ok? ==>
        ParseWc(stdout).value == WcCounts(ParseInt(f[0]).value, ParseInt(f[1]).value, ParseInt(f[2]).value)
  {
  }
}
