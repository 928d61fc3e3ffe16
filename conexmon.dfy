/** conexmon.py: reads netdiff's report of opened (`+ `) and closed (`- `)
    connections, groups the opened ones into batches ended by a separator
    line, and joins each connection with the `ps aux` entry of its process.

    The netdiff output and the `ps aux` output are given as sequences of
    lines; running those programs is not part of this model. */
module Conexmon {
  import opened PyText

  // -----------------------------------------------------------------------
  // parse_line (conexmon.py:96-99)
  // -----------------------------------------------------------------------

  /** One connection as netdiff reports it. */
  datatype NetLine = NetLine(command: string, pid: string, port: string, destination: string)

  /** `line_raw[2:].split('\t')` unpacked into four leading fields; `None`
      is the `ValueError` of an unpacking with fewer than four. */
  function ParseLine(line: string): Option<NetLine>
  {
    var fields := Split(DropPrefix(line, 2), '\t');
    if |fields| < 4 then None else Some(NetLine(fields[0], fields[1], fields[2], fields[3]))
  }

  predicate NoTab(s: string) { '\t' !in s }

  /** A line made of a two-character marker and tab-separated fields reads
      back as its first four fields; the rest are dropped. */
  lemma ParseLineRoundTrip(marker: string, command: string, pid: string, port: string, destination: string,
                           rest: seq<string>)
    requires |marker| == 2
    requires NoTab(command) && NoTab(pid) && NoTab(port) && NoTab(destination)
    requires forall i :: 0 <= i < |rest| ==> NoTab(rest[i])
    ensures ParseLine(marker + Join([command, pid, port, destination] + rest, '\t'))
         == Some(NetLine(command, pid, port, destination))
  {
    var parts := [command, pid, port, destination] + rest;
    forall i | 0 <= i < |parts|
      ensures NoTab(parts[i])
    {
      if i == 0 {
        assert parts[i] == command;
      } else if i == 1 {
        assert parts[i] == pid;
      } else if i == 2 {
        assert parts[i] == port;
      } else if i == 3 {
        assert parts[i] == destination;
      } else {
        assert parts[i] == rest[i - 4];
      }
    }
    var body := Join(parts, '\t');
    SplitJoin(parts, '\t');
    assert DropPrefix(marker + body, 2) == body by {
      assert (marker + body)[2..] == body;
    }
    assert Split(DropPrefix(marker + body, 2), '\t') == parts;
  }

  /** The line terminator is not stripped: a line with exactly four fields
      keeps it at the end of the destination. */
  lemma DestinationKeepsNewline(command: string, pid: string, port: string, destination: string)
    requires NoTab(command) && NoTab(pid) && NoTab(port) && NoTab(destination)
    ensures var r := ParseLine("+ " + Join([command, pid, port, destination + "\n"], '\t'));
      r.Some? && r.value.destination == destination + "\n"
  {
    ParseLineRoundTrip("+ ", command, pid, port, destination + "\n", []);
    assert [command, pid, port, destination + "\n"] + [] == [command, pid, port, destination + "\n"];
  }

  /** Fewer than four fields cannot be unpacked. */
  lemma ParseLineTooFew(marker: string, parts: seq<string>)
    requires |marker| == 2 && 1 <= |parts| < 4
    requires forall i :: 0 <= i < |parts| ==> NoTab(parts[i])
    ensures ParseLine(marker + Join(parts, '\t')) == None
  {
    var body := Join(parts, '\t');
    assert (marker + body)[2..] == body;
    SplitJoin(parts, '\t');
  }

  // -----------------------------------------------------------------------
  // parse_ps (conexmon.py:102-110)
  // -----------------------------------------------------------------------

  /** The columns of a `ps aux` line other than the pid; `cmdline` is the
      list of the 11th and later columns. */
  datatype ProcInfo = ProcInfo(user: string, cpu: string, mem: string, vsz: string, rss: string, tty: string,
                               stat: string, start: string, time: string, cmdline: seq<string>)

  /** A `ps aux` line split into its pid and the rest. */
  datatype PsRow = PsRow(pid: string, info: ProcInfo)

  /** `line_raw.rstrip('\r\n').split()`. */
  function PsFields(line: string): seq<string>
  {
    Words(RStripNewline(line))
  }

  /** The unpacking at conexmon.py:106: at least ten columns, the second
      being the pid; `None` is the `ValueError` case. */
  function PsEntry(line: string): Option<PsRow>
  {
    var f := PsFields(line);
    if |f| < 10 then None
    else Some(PsRow(f[1], ProcInfo(f[0], f[2], f[3], f[4], f[5], f[6], f[7], f[8], f[9], f[10..])))
  }

  /** The table `parse_ps` builds from the lines, or the first line it
      fails on. */
  function PsTable(lines: seq<string>): Result<map<string, ProcInfo>, string>
    decreases |lines|
  {
    if lines == [] then Ok(map[])
    else
      match PsTable(lines[..|lines| - 1])
      case Err(line) => Err(line)
      case Ok(table) =>
        match PsEntry(lines[|lines| - 1])
        case None => Err(lines[|lines| - 1])
        case Some(row) => Ok(table[row.pid := row.info])
  }

  /** Once a prefix has failed, the whole fails on the same line. */
  lemma {:induction false} PsTableFailed(lines: seq<string>, j: nat)
    requires j <= |lines| && PsTable(lines[..j]).Err?
    ensures PsTable(lines) == PsTable(lines[..j])
    decreases |lines| - j
  {
    if j < |lines| {
      assert lines[..j + 1][..j] == lines[..j];
      PsTableFailed(lines, j + 1);
    } else {
      assert lines[..j] == lines;
    }
  }

  /** conexmon.py:102-110: one dictionary assignment per line; a line with
      fewer than ten columns ends the run through `fail`. */
  method ParsePs(psOutput: seq<string>) returns (r: Result<map<string, ProcInfo>, string>)
    ensures r == PsTable(psOutput)
  {
    var psData: map<string, ProcInfo> := map[];
    for i := 0 to |psOutput|
      invariant PsTable(psOutput[..i]) == Ok(psData)
    {
      var lineRaw := psOutput[i];
      var fields := Words(RStripNewline(lineRaw));
      assert psOutput[..i + 1][..i] == psOutput[..i];
      if |fields| < 10 {
        PsTableFailed(psOutput, i + 1);
        return Err(lineRaw);
      }
      var info := ProcInfo(fields[0], fields[2], fields[3], fields[4], fields[5], fields[6], fields[7],
                           fields[8], fields[9], fields[10..]);
      psData := psData[fields[1] := info];
    }
    assert psOutput[..|psOutput|] == psOutput;
    r := Ok(psData);
  }

  /** The table is built exactly when every line has ten columns. */
  lemma {:induction false} PsTableOk(lines: seq<string>)
    ensures PsTable(lines).Ok? <==> forall i :: 0 <= i < |lines| ==> PsEntry(lines[i]).Some?
    decreases |lines|
  {
    if lines != [] {
      var front := lines[..|lines| - 1];
      PsTableOk(front);
      assert forall i :: 0 <= i < |front| ==> front[i] == lines[i];
    }
  }

  /** A failure names the first line with fewer than ten columns. */
  lemma {:induction false} PsTableFirstFailure(lines: seq<string>)
    requires PsTable(lines).Err?
    ensures exists i :: 0 <= i < |lines| && PsTable(lines).error == lines[i] && PsEntry(lines[i]).None?
                        && forall j :: 0 <= j < i ==> PsEntry(lines[j]).Some?
    decreases |lines|
  {
    var front := lines[..|lines| - 1];
    var last := lines[|lines| - 1];
    if PsTable(front).Err? {
      PsTableFirstFailure(front);
      var i :| 0 <= i < |front| && PsTable(front).error == front[i] && PsEntry(front[i]).None?
               && forall j :: 0 <= j < i ==> PsEntry(front[j]).Some?;
      assert forall j :: 0 <= j <= i ==> front[j] == lines[j];
    } else {
      PsTableOk(front);
      assert forall j :: 0 <= j < |front| ==> front[j] == lines[j];
      assert PsTable(lines).error == lines[|front|];
    }
  }

  /** The line parses and its pid is `p`. */
  predicate CarriesPid(line: string, p: string)
  {
    PsEntry(line).Some? && PsEntry(line).value.pid == p
  }

  /** The keys are exactly the pids seen. */
  lemma {:induction false} PsTableKeys(lines: seq<string>)
    requires PsTable(lines).Ok?
    ensures forall p :: p in PsTable(lines).value <==> exists i :: 0 <= i < |lines| && CarriesPid(lines[i], p)
    decreases |lines|
  {
    if lines != [] {
      var front := lines[..|lines| - 1];
      var row := PsEntry(lines[|lines| - 1]).value;
      var table := PsTable(front).value;
      assert PsTable(lines).value == table[row.pid := row.info];
      PsTableKeys(front);
      forall p
        ensures p in PsTable(lines).value <==> exists i :: 0 <= i < |lines| && CarriesPid(lines[i], p)
      {
        if p in table {
          var i :| 0 <= i < |front| && CarriesPid(front[i], p);
          assert front[i] == lines[i];
        } else if p == row.pid {
          assert CarriesPid(lines[|front|], p);
        } else {
          assert forall i :: 0 <= i < |front| ==> front[i] == lines[i];
        }
      }
    }
  }

  /** A later line with the same pid overwrites an earlier one: each pid
      maps to the entry of the last line carrying it. */
  lemma {:induction false} PsTableLastWins(lines: seq<string>, i: int)
    requires PsTable(lines).Ok? && 0 <= i < |lines|
    requires PsEntry(lines[i]).Some?
    requires forall j :: i < j < |lines| ==>
      PsEntry(lines[j]).Some? && PsEntry(lines[j]).value.pid != PsEntry(lines[i]).value.pid
    ensures PsEntry(lines[i]).value.pid in PsTable(lines).value
    ensures PsTable(lines).value[PsEntry(lines[i]).value.pid] == PsEntry(lines[i]).value.info
    decreases |lines|
  {
    var front := lines[..|lines| - 1];
    if i < |front| {
      assert front[i] == lines[i];
      forall j | i < j < |front|
        ensures PsEntry(front[j]).Some? && PsEntry(front[j]).value.pid != PsEntry(front[i]).value.pid
      {
        assert front[j] == lines[j];
      }
      PsTableLastWins(front, i);
    }
  }

  // -----------------------------------------------------------------------
  // parse_lines (conexmon.py:78-93), given the ps table
  // -----------------------------------------------------------------------

  /** A connection joined with its process: `(proc_info, command,
      destination, port)`, note the order of the last two. */
  datatype Connection = Connection(procInfo: ProcInfo, command: string, destination: string, port: string)

  /** The exceptions that end the generator: the unpacking at line 82 and
      `cmdline[0]` on an empty command line at line 89. */
  datatype LineFailure = Unpackable(line: string) | EmptyCmdline(line: string)

  /** What happens to one line. */
  datatype Step = Skipped | Yielded(connection: Connection) | Failed(failure: LineFailure)

  function LineStep(line: string, ps: map<string, ProcInfo>): Step
  {
    match ParseLine(line)
    case None => Failed(Unpackable(line))
    case Some(net) =>
      if net.pid !in ps then Skipped
      else if ps[net.pid].cmdline == [] then Failed(EmptyCmdline(line))
      else Yielded(Connection(ps[net.pid], net.command, net.destination, net.port))
  }

  /** The items a generator yields before it stops, and the exception it
      stops with, if any. */
  datatype Generated = Generated(items: seq<Connection>, failure: Option<LineFailure>)

  /** `parse_lines(lines)` with `ps_data` given. */
  function ParseLines(lines: seq<string>, ps: map<string, ProcInfo>): Generated
    decreases |lines|
  {
    if lines == [] then Generated([], None)
    else
      match LineStep(lines[0], ps)
      case Failed(f) => Generated([], Some(f))
      case Skipped => ParseLines(lines[1..], ps)
      case Yielded(c) =>
        var rest := ParseLines(lines[1..], ps);
        Generated([c] + rest.items, rest.failure)
  }

  /** Processing `a + b` yields `a`'s items and then, unless `a` failed,
      `b`'s. */
  lemma {:induction false} ParseLinesAppend(a: seq<string>, b: seq<string>, ps: map<string, ProcInfo>)
    ensures var ga, gb := ParseLines(a, ps), ParseLines(b, ps);
      ParseLines(a + b, ps) == if ga.failure.Some? then ga else Generated(ga.items + gb.items, gb.failure)
    decreases |a|
  {
    if a == [] {
      assert a + b == b;
    } else {
      assert (a + b)[0] == a[0] && (a + b)[1..] == a[1..] + b;
      ParseLinesAppend(a[1..], b, ps);
      var ga, gb := ParseLines(a[1..], ps), ParseLines(b, ps);
      if LineStep(a[0], ps).Yielded? && ga.failure.None? {
        assert [LineStep(a[0], ps).connection] + (ga.items + gb.items)
            == [LineStep(a[0], ps).connection] + ga.items + gb.items;
      }
    }
  }

  /** A line whose pid `ps` does not know is skipped without effect. */
  lemma UnknownPidSkipped(a: seq<string>, line: string, b: seq<string>, ps: map<string, ProcInfo>)
    requires ParseLine(line).Some? && ParseLine(line).value.pid !in ps
    ensures ParseLines(a + [line] + b, ps) == ParseLines(a + b, ps)
  {
    ParseLinesAppend(a, [line] + b, ps);
    ParseLinesAppend(a, b, ps);
    assert a + [line] + b == a + ([line] + b);
    assert ([line] + b)[1..] == b;
  }

  /** A well-formed line of a known process with a command line yields one
      item with the destination before the port; one with an unknown pid
      yields nothing. */
  lemma ParseOneLine(marker: string, command: string, pid: string, port: string, destination: string,
                     rest: seq<string>, ps: map<string, ProcInfo>)
    requires |marker| == 2
    requires NoTab(command) && NoTab(pid) && NoTab(port) && NoTab(destination)
    requires forall i :: 0 <= i < |rest| ==> NoTab(rest[i])
    ensures var g := ParseLines([marker + Join([command, pid, port, destination] + rest, '\t')], ps);
      g == if pid !in ps then Generated([], None)
           else if ps[pid].cmdline == [] then
             Generated([], Some(EmptyCmdline(marker + Join([command, pid, port, destination] + rest, '\t'))))
           else Generated([Connection(ps[pid], command, destination, port)], None)
  {
    ParseLineRoundTrip(marker, command, pid, port, destination, rest);
    var line := marker + Join([command, pid, port, destination] + rest, '\t');
    assert [line][1..] == [];
  }

  /** Every item carries a process entry of `ps` with a non-empty command
      line, and there are no more items than lines. */
  lemma {:induction false} ItemsFromPs(lines: seq<string>, ps: map<string, ProcInfo>)
    ensures var g := ParseLines(lines, ps);
      |g.items| <= |lines|
      && forall t :: 0 <= t < |g.items| ==> g.items[t].procInfo in ps.Values && g.items[t].procInfo.cmdline != []
    decreases |lines|
  {
    if lines != [] {
      ItemsFromPs(lines[1..], ps);
      var step := LineStep(lines[0], ps);
      if step.Yielded? {
        var net := ParseLine(lines[0]).value;
        assert ps[net.pid] in ps.Values;
        var rest := ParseLines(lines[1..], ps);
        assert forall t :: 0 < t < 1 + |rest.items| ==> ([step.connection] + rest.items)[t] == rest.items[t - 1];
      }
    }
  }

  // -----------------------------------------------------------------------
  // format_output (conexmon.py:113-115)
  // -----------------------------------------------------------------------

  /** `[command, user, destination, port] + cmdline[:nargs]`. */
  function FormatOutput(procInfo: ProcInfo, command: string, destination: string, port: string, nargs: int)
    : seq<string>
  {
    [command, procInfo.user, destination, port] + Take(procInfo.cmdline, nargs)
  }

  /** Four leading columns, then the first `nargs` arguments (all but the
      last `-nargs` for a negative `nargs`). */
  lemma FormatOutputShape(procInfo: ProcInfo, command: string, destination: string, port: string, nargs: int)
    ensures var r, cmd := FormatOutput(procInfo, command, destination, port, nargs), procInfo.cmdline;
      && |r| == 4 + (if nargs >= 0 then Min(nargs, |cmd|) else Max(|cmd| + nargs, 0))
      && r[..4] == [command, procInfo.user, destination, port]
      && r[4..] <= cmd
  {
    var r := FormatOutput(procInfo, command, destination, port, nargs);
    assert r[4..] == Take(procInfo.cmdline, nargs);
  }

  // -----------------------------------------------------------------------
  // The line filter of main (conexmon.py:51-66)
  // -----------------------------------------------------------------------

  /** The line that ends a netdiff report. */
  const Separator: string := "--------------\n"

  predicate StartsWith(s: string, prefix: string)
  {
    |prefix| <= |s| && s[..|prefix|] == prefix
  }

  /** The loop's variables `header` and `update_lines`, and the batches it
      has handed to `parse_lines` so far. */
  datatype FilterState = FilterState(header: bool, updateLines: seq<string>, batches: seq<seq<string>>)

  const Start: FilterState := FilterState(true, [], [])

  /** One iteration of the loop at conexmon.py:53-66. */
  function FilterStep(st: FilterState, line: string): FilterState
  {
    if st.header then st.(header := false)
    else if StartsWith(line, "- ") then st
    else if StartsWith(line, "+ ") then st.(updateLines := st.updateLines + [line])
    else if line == Separator then st.(updateLines := [], batches := st.batches + [st.updateLines])
    else st
  }

  /** The state after the loop has consumed `lines`, starting from `st`. */
  function Run(st: FilterState, lines: seq<string>): FilterState
    decreases |lines|
  {
    if lines == [] then st else FilterStep(Run(st, lines[..|lines| - 1]), lines[|lines| - 1])
  }

  /** conexmon.py:51-66: the batches handed over (as the `update_lines` each
      separator passes to `parse_lines`) and the lines still buffered at
      the end of the input. */
  method FilterUpdates(netdiffOutput: seq<string>) returns (batches: seq<seq<string>>, updateLines: seq<string>)
    ensures Run(Start, netdiffOutput) == FilterState(netdiffOutput == [], updateLines, batches)
  {
    var header := true;
    updateLines := [];
    batches := [];
    for i := 0 to |netdiffOutput|
      invariant Run(Start, netdiffOutput[..i]) == FilterState(header, updateLines, batches)
      invariant header <==> i == 0
    {
      var lineRaw := netdiffOutput[i];
      assert netdiffOutput[..i + 1][..i] == netdiffOutput[..i];
      if header {
        header := false;
      } else if StartsWith(lineRaw, "- ") {
      } else if StartsWith(lineRaw, "+ ") {
        updateLines := updateLines + [lineRaw];
      } else if lineRaw == Separator {
        batches := batches + [updateLines];
        updateLines := [];
      }
    }
    assert netdiffOutput[..|netdiffOutput|] == netdiffOutput;
  }

  /** The lines starting with `+ `, in order. */
  function PlusLines(lines: seq<string>): seq<string>
    decreases |lines|
  {
    if lines == [] then []
    else PlusLines(lines[..|lines| - 1]) + if StartsWith(lines[|lines| - 1], "+ ") then [lines[|lines| - 1]] else []
  }

  function SeparatorCount(lines: seq<string>): nat
    decreases |lines|
  {
    if lines == [] then 0
    else SeparatorCount(lines[..|lines| - 1]) + if lines[|lines| - 1] == Separator then 1 else 0
  }

  function Flatten(batches: seq<seq<string>>): seq<string>
    decreases |batches|
  {
    if batches == [] then [] else Flatten(batches[..|batches| - 1]) + batches[|batches| - 1]
  }

  /** Feeding `a` and then `b` is feeding `a + b`. */
  lemma {:induction false} RunAppend(st: FilterState, a: seq<string>, b: seq<string>)
    ensures Run(st, a + b) == Run(Run(st, a), b)
    decreases |b|
  {
    if b == [] {
      assert a + b == a;
    } else {
      var b' := b[..|b| - 1];
      assert (a + b)[..|a + b| - 1] == a + b';
      assert (a + b)[|a + b| - 1] == b[|b| - 1];
      RunAppend(st, a, b');
    }
  }

  /** The first line is dropped whatever it says. */
  lemma HeaderDiscarded(header: string, rest: seq<string>)
    ensures Run(Start, [header] + rest) == Run(FilterState(false, [], []), rest)
  {
    RunAppend(Start, [header], rest);
    assert [header][..0] == [];
  }

  /** The separator line is neither a `- ` nor a `+ ` line. */
  lemma SeparatorIsNeither()
    ensures !StartsWith(Separator, "- ") && !StartsWith(Separator, "+ ")
  {
    assert Separator[..2] == "--";
  }

  lemma RunSnoc(st: FilterState, lines: seq<string>, line: string)
    ensures Run(st, lines + [line]) == FilterStep(Run(st, lines), line)
  {
    assert (lines + [line])[..|lines|] == lines;
  }

  lemma FlattenSnoc(batches: seq<seq<string>>, batch: seq<string>)
    ensures Flatten(batches + [batch]) == Flatten(batches) + batch
  {
    assert (batches + [batch])[..|batches|] == batches;
  }

  /** After the header, every `+ ` line is buffered or handed over, in
      order, and there is one batch per separator. */
  lemma {:induction false} Conservation(st: FilterState, lines: seq<string>)
    requires !st.header
    ensures var r := Run(st, lines);
      && !r.header
      && Flatten(r.batches) + r.updateLines == Flatten(st.batches) + st.updateLines + PlusLines(lines)
      && |r.batches| == |st.batches| + SeparatorCount(lines)
    decreases |lines|
  {
    if lines == [] {
      assert Flatten(st.batches) + st.updateLines + [] == Flatten(st.batches) + st.updateLines;
    } else {
      var front := lines[..|lines| - 1];
      var line := lines[|lines| - 1];
      Conservation(st, front);
      var p := Run(st, front);
      var base := Flatten(st.batches) + st.updateLines;
      SeparatorIsNeither();
      if line == Separator {
        FlattenSnoc(p.batches, p.updateLines);
        assert Flatten(p.batches) + p.updateLines + [] == Flatten(p.batches) + p.updateLines;
        assert PlusLines(lines) == PlusLines(front) + [];
      } else if StartsWith(line, "+ ") && !StartsWith(line, "- ") {
        assert PlusLines(lines) == PlusLines(front) + [line];
        assert Flatten(p.batches) + (p.updateLines + [line]) == Flatten(p.batches) + p.updateLines + [line];
        assert base + PlusLines(front) + [line] == base + (PlusLines(front) + [line]);
      } else {
        assert PlusLines(lines) == PlusLines(front) + [];
        assert base + PlusLines(front) + [] == base + PlusLines(front);
      }
    }
  }

  /** Up to a separator, `+ ` lines accumulate; the separator hands them
      over as one batch. */
  lemma {:induction false} Segment(st: FilterState, seg: seq<string>)
    requires !st.header
    requires forall i :: 0 <= i < |seg| ==> seg[i] != Separator
    ensures Run(st, seg) == st.(updateLines := st.updateLines + PlusLines(seg))
    decreases |seg|
  {
    if seg == [] {
      assert st.updateLines + [] == st.updateLines;
    } else {
      var front := seg[..|seg| - 1];
      var line := seg[|seg| - 1];
      Segment(st, front);
      if StartsWith(line, "+ ") && !StartsWith(line, "- ") {
        assert st.updateLines + PlusLines(front) + [line] == st.updateLines + (PlusLines(front) + [line]);
      } else {
        assert PlusLines(seg) == PlusLines(front) + [];
        assert st.updateLines + (PlusLines(front) + []) == st.updateLines + PlusLines(front);
      }
    }
  }

  /** The separator hands the buffer over as one batch and empties it. */
  lemma SegmentThenSeparator(st: FilterState, seg: seq<string>)
    requires !st.header
    requires forall i :: 0 <= i < |seg| ==> seg[i] != Separator
    ensures Run(st, seg + [Separator])
         == FilterState(false, [], st.batches + [st.updateLines + PlusLines(seg)])
  {
    Segment(st, seg);
    RunSnoc(st, seg, Separator);
    SeparatorIsNeither();
  }

  /** `+ ` lines after the last separator are still buffered when the input
      ends, never handed over; the batches handed over hold exactly the
      `+ ` lines before it. */
  lemma LastSeparator(header: string, before: seq<string>, after: seq<string>)
    requires forall i :: 0 <= i < |after| ==> after[i] != Separator
    ensures var r := Run(Start, [header] + before + [Separator] + after);
      r.updateLines == PlusLines(after) && Flatten(r.batches) == PlusLines(before)
  {
    var open := FilterState(false, [], []);
    var body := before + [Separator];
    HeaderDiscarded(header, body + after);
    assert [header] + before + [Separator] + after == [header] + (body + after);
    RunAppend(open, body, after);
    var mid := Run(open, body);
    RunSnoc(open, before, Separator);
    SeparatorIsNeither();
    Conservation(open, before);
    assert mid.updateLines == [] && mid.batches == Run(open, before).batches + [Run(open, before).updateLines];
    FlattenSnoc(Run(open, before).batches, Run(open, before).updateLines);
    assert Flatten(mid.batches) == PlusLines(before);
    Segment(mid, after);
  }
}
