# Verified model of three log and report filters

This project models in Dafny the data-handling core of three small
command-line scripts, and proves properties of that model.

- **battery-filter.py**: `find_last_unplugged` takes a chronological battery log of
  `(timestamp, charge_pct)` points. It scans back from the newest point to the last point
  below `100 - tolerance` and from there to the nearest full point before it. It returns
  the points in between, oldest first, with padding on both sides. The padding before the
  period is taken by position, full or not. The padding after it never reaches the final
  input point.
- **log-size.py**: each check of a file's size writes one tab-separated record, to stdout
  or appended to `--outfile`. Without `--watch`, the previous counts that the growth
  rates need are read back from that file's last record. With `--watch`, one run checks
  once per interval and takes them from its own previous check. The model covers:
  - how that record's columns are assembled;
  - how the log's last record is read back (`read_last_log`);
  - how `wc` output is parsed.
- **conexmon.py**: turns netdiff's report of opened and closed connections into batches
  of opened connections. The model covers:
  - how each connection line is parsed (`parse_line`);
  - how `ps aux` lines are parsed into a table (`parse_ps`);
  - how connections are joined with that table (`parse_lines`);
  - how output rows are formatted (`format_output`);
  - the line filter of `main` that collects the batches.

## Files

- `py_text.dfy`, module `PyText`: the Python built-ins the scripts rely on:
  - `str.split(sep)` and `sep.join`;
  - `str.split()` on whitespace, over the full `str.isspace()` character set;
  - `str.rstrip('\r\n')`;
  - `int(text)` and `str(n)`;
  - the slices `s[n:]` and `s[:n]`.
- `battery_filter.dfy`, module `BatteryFilter`:
  - `FindLastUnplugged` mirrors the backward loop: the `started` flag, the two countdown
    padding loops, the `break` and the final `reversed`.
  - It is proved equal to the closed form `UnpluggedIndices`, which is the list of input
    positions returned. The properties are proved about that closed form.
- `log_size.dfy`, module `LogSize`:
  - `ReadLastLog` is the loop over the log's lines, proved against `LastRecord`.
  - `AssembleFields` is the `append`/`extend`/`fields[3] = ...` sequence, proved against
    `Columns`.
  - `ParseWc` parses `wc` output.
- `conexmon.dfy`, module `Conexmon`:
  - `ParsePs` is the dictionary-filling loop, proved against `PsTable`.
  - `ParseLine`, `ParseLines` and `FormatOutput` are pure functions.
  - `FilterUpdates` is the line filter of `main`, proved against the fold `Run` of
    `FilterStep`.

Inputs that come from the outside world are parameters:
- the battery samples;
- the log file's lines;
- `wc`'s standard output;
- the `ps aux` lines;
- the netdiff lines;
- the current timestamp;
- the already formatted rate texts.

### Where the code and its own documentation disagree

The model follows the code in each case below.

- battery-filter.py:80 promises a `list`. Line 108 returns `reversed(last_unplugged)`,
  a one-shot iterator with no `len`, so the result cannot be passed back in as it is.
- battery-filter.py:81 says `margin` full points are kept "on either side" of the
  unplugged period. The code does something else:
  - Trailing padding stops before the final input point (line 105). The final point is
    never returned, even when it is the non-full one.
  - The bounding full point `b` is appended at line 93 and again by `range(i, end, -1)`
    at line 98. It therefore appears twice when `margin >= 2` and `b >= 1`.
  - Leading padding stops above index `max(b - margin + 1, 0)`.
  - Leading padding does not look at charge. A non-full point before `b` can come back as
    padding (`ExampleActivePadding`).
  - `[(0,60),(1,100)]` with margin 5 gives `[(0,60)]`. Reading the docstring, one would
    expect `[(0,60),(1,100)]`, with the full point after the period kept.
  - `[(0,100),(1,50),(2,100),(3,100),(4,40),(5,100)]` with margin 0 gives
    `[(3,100),(4,40)]`. Reading the docstring, one would expect `[(4,40)]`, with no full
    point kept.
  - Running the filter on a list of its result's points can shorten it
    (`ExampleNotIdempotent`). Reading the docstring, one would expect the same list back.
  - For `margin <= 1`, `max(b - margin + 1, 0)` is `b` or higher, yet `b` is returned.
    `LeadingPadding` states what holds: every returned position below `b` lies above
    that index.
- log-size.py:12-22 says the output has 4-6 columns, with column 4 being `.` when no rate
  is known. Without `--lines`, lines 109-111 and 118-119 write three columns, or four
  when there is a rate; there is no `.` placeholder. With `--lines` there are five or six
  columns, and column 4 is `.` or the bytes rate (`ColumnLayout`).

## Model

| member | source | states |
|---|---|---|
| PyText.Join | log-size.py:132 | `sep.join(parts)`: the parts with one separator between neighbours; see Split, SplitJoin |
| PyText.Split | log-size.py:147 | `s.split(sep)` gives at least one piece; no piece holds the separator; joining the pieces with it gives `s` back |
| PyText.SplitJoin | conexmon.py:97 | splitting a tab-joined list of tab-free fields gives the same list back |
| PyText.RStripNewline | log-size.py:147 | `rstrip('\r\n')` keeps a prefix that does not end in `\r` or `\n`, and removes only `\r`/`\n` characters |
| PyText.RStripNewlineWritten | log-size.py:147 | a line not ending in a line break, written with `\n`, strips back to itself |
| PyText.Words | conexmon.py:106 | `str.split()` gives non-empty words without whitespace |
| PyText.WordsCons | conexmon.py:106 | whitespace, then a word ending at whitespace or at the end of the text: that word is the first one `str.split()` returns |
| PyText.WordsOfSpace | log-size.py:178 | text made only of whitespace splits into no words |
| PyText.ParseInt | log-size.py:153 | `int(text)` succeeds exactly on an optional sign followed by one or more digits |
| PyText.IntToString | log-size.py:132 | `str(n)` is non-empty and holds no tab, whitespace or line break |
| PyText.ParseIntToString | log-size.py:153 | `int(str(n)) == n` for every integer |
| PyText.DropPrefix | conexmon.py:97 | `s[n:]` has length `max(len(s) - n, 0)` and is the rest of `s` after its first `n` characters |
| PyText.Take | conexmon.py:115 | `s[:n]` is a prefix of `s` of length `min(n, len(s))`, or `max(len(s) + n, 0)` for negative `n` |
| BatteryFilter.IsFull | battery-filter.py:86-101 | `charge_pct >= full_pct` with `full_pct = 100 - tolerance`; its negation is the `charge_pct < full_pct` test of line 101; see ExampleThreshold |
| BatteryFilter.TrailingPart | battery-filter.py:103-107 | the positions the countdown at line 106 appends when `k` is the last non-full point: `k` up to `min(k + margin, n - 2)`; see TrailingPadding |
| BatteryFilter.EpisodePart | battery-filter.py:90-100 | the positions appended while `started` holds, oldest first: the leading padding, the bounding full point `b`, then `b+1 .. k-1`, or `0 .. k-1` when no full point precedes `k`; see BoundedEpisode, UnboundedEpisode, LeadingPadding |
| BatteryFilter.LastUnplugged | battery-filter.py:79-108 | what `find_last_unplugged` returns: the points at `UnpluggedIndices`; see FindLastUnplugged, EmptyHistory, HistoryOrdered |
| BatteryFilter.LastWhere | battery-filter.py:90-101 | finds the last index below a bound with the given fullness, with every later index below the bound of the other fullness; `None` means no index matches |
| BatteryFilter.UnpluggedIndices | battery-filter.py:79-108 | every returned position is an input position other than the final one |
| BatteryFilter.ReverseAppended | battery-filter.py:108 | reversing the list appended position by position gives the points at those positions in chronological order |
| BatteryFilter.AppendCountdown | battery-filter.py:98-99 | the countdown `for j in range(start, stop, -1)` appends the points at `start` down to `stop + 1`, the same loop shape as lines 106-107 |
| BatteryFilter.BoundedEpisode | battery-filter.py:93-107 | with last non-full point `k` and nearest full point `b` before it, the result is leading padding, then `b`, then `b+1 .. k-1`, then the trailing part from `k` |
| BatteryFilter.UnboundedEpisode | battery-filter.py:90-107 | with no full point before `k`, the result is `0 .. k-1` followed by the trailing part from `k` |
| BatteryFilter.ScanIdle | battery-filter.py:101 | a full point seen before `started` changes nothing |
| BatteryFilter.ScanStart | battery-filter.py:101-107 | the first non-full point seen becomes `k`, and the trailing padding from `k` is what has been kept so far |
| BatteryFilter.ScanRun | battery-filter.py:92-93 | a further non-full point is kept in front of the run |
| BatteryFilter.ScanBound | battery-filter.py:94-100 | at the bounding full point, keeping it and then the leading padding gives exactly the closed-form result |
| BatteryFilter.ScanExhausted | battery-filter.py:90-107 | a scan that reaches index 0 without a `break` has kept exactly the closed-form result |
| BatteryFilter.FindLastUnplugged | battery-filter.py:79-108 | the loop returns exactly `LastUnplugged`: the points at `UnpluggedIndices`, oldest first |
| BatteryFilter.BoundedShape | battery-filter.py:93-107 | the result has `a + (k - b) + TrailLength` positions, given index by index: `a` padding positions ending at `b`, then `b`, then `b+1, b+2, ...` with no gap |
| BatteryFilter.UnboundedShape | battery-filter.py:90-107 | with no full point before `k`, the result is every position from 0 up to the end of the trailing padding |
| BatteryFilter.EmptyHistory | battery-filter.py:89-108 | the result is empty if and only if no point is below `100 - tolerance`, or the only such point is the first one and no trailing padding fits (`margin < 0` or a single point) |
| BatteryFilter.HistoryOrdered | battery-filter.py:93-108 | positions never decrease; a position repeats only at two neighbouring places, and only for a full point followed by a non-full one |
| BatteryFilter.RepeatedBound | battery-filter.py:93-99 | the bounding full point appears twice if and only if `margin >= 2` and it is not index 0 |
| BatteryFilter.EpisodeReturned | battery-filter.py:97-107 | every position from `b` to `k - 1` is returned; `k` is returned if and only if `margin >= 0` and `k < n - 1` |
| BatteryFilter.TrailingPadding | battery-filter.py:105-107 | exactly `max(0, min(margin, n - 2 - k))` positions after `k` come last, and all of them are full |
| BatteryFilter.LeadingPadding | battery-filter.py:93-99 | the first `1 + min(max(margin - 1, 0), b)` positions are those at or below `b`, ending with `b`; every position below `b` lies above `max(b - margin + 1, 0)` |
| BatteryFilter.ExampleMarginOne | battery-filter.py:79-108 | margin 1 keeps one full point on each side of the run 80, 60 |
| BatteryFilter.ExampleFinalPointDropped | battery-filter.py:105 | `[(0,60),(1,100)]` with margin 5 gives `[(0,60)]` |
| BatteryFilter.ExampleMarginZero | battery-filter.py:93-107 | margin 0 still keeps the bounding full point and the last non-full point |
| BatteryFilter.ExampleRepeatedBound | battery-filter.py:93-99 | margin 2 returns the bounding full point twice |
| BatteryFilter.ExampleSingleActive | battery-filter.py:101-107 | a single non-full point gives an empty result for every margin |
| BatteryFilter.ExampleThreshold | battery-filter.py:86-101 | a point at exactly `100 - tolerance` is full; just below that threshold it is not |
| BatteryFilter.ExampleNotIdempotent | battery-filter.py:79-108 | filtering a list of a result's points again can shorten it |
| BatteryFilter.ExampleActivePadding | battery-filter.py:97-99 | leading padding can return a non-full point from an earlier period |
| LogSize.LineFields | log-size.py:147 | `line_raw.rstrip('\r\n').split('\t')`, at least one field; see TerminatorIgnored, WrittenLineRead |
| LogSize.ParseFields | log-size.py:152-171 | the parse of the last line's fields: `int` of columns 0, 2 and (when present) 4, with the `ParseError` each failure raises; see ParsedRecord, RecordErrors, IgnoredColumns |
| LogSize.LastRecord | log-size.py:142-171 | what `read_last_log` returns or raises for a log with these lines; see ReadLastLog, EmptyLogFails, OnlyLastLine, LastLineRead |
| LogSize.ReadLastLog | log-size.py:142-171 | the loop over the log's lines returns exactly `LastRecord` of the log |
| LogSize.EmptyLogFails | log-size.py:143-150 | an empty log is a `ParseError` |
| LogSize.OnlyLastLine | log-size.py:146-148 | only the last line matters: changing the lines before it changes nothing |
| LogSize.TerminatorIgnored | log-size.py:147 | appending line-break characters to the last line changes nothing |
| LogSize.LineTerminatorIgnored | log-size.py:147 | a last line ending in `\n` or `\r\n` reads the same as one without a terminator |
| LogSize.LastLineRead | log-size.py:146-171 | the result is the parse of the last line's stripped, tab-split fields |
| LogSize.ParsedRecord | log-size.py:152-171 | the parse succeeds if and only if column 0 and column 2 are integers and column 4, when present, is one; it gives `(col0, col2, col4 or None)` |
| LogSize.RecordErrors | log-size.py:152-170 | the error reported: a bad timestamp first, then a missing bytes column with the column count, then bad bytes, then bad lines |
| LogSize.IgnoredColumns | log-size.py:152-171 | column 1 (in a record of any length), column 3 and any column after 4 never affect the result |
| LogSize.HasRate | log-size.py:114 | `last_timestamp and last_timestamp != timestamp`; see RateAfterAppend |
| LogSize.PathColumn | log-size.py:99-102 | column 1: the target path, or `.` with `--no-path`; see ColumnLayout |
| LogSize.Columns | log-size.py:94-125 | the columns of one record, given the previous counts and the formatted rates; see AssembleFields, ColumnLayout, RecordRoundTrip |
| LogSize.PreviousCounts | log-size.py:82-86 | the previous counts: `read_last_log`'s result, or unknown after a `ParseError`; see RateAfterAppend |
| LogSize.AssembleFields | log-size.py:94-125 | the appends and the write at index 3 produce exactly `Columns` |
| LogSize.ColumnLayout | log-size.py:94-125 | 3 or 4 columns without `--lines`, 5 or 6 with it; column 1 is the path or `.`; column 3 is the bytes rate when there is one, else `.` with `--lines`; with six columns the sixth is the lines rate |
| LogSize.RecordRoundTrip | log-size.py:94-132 | a record assembled and tab-joined at line 132 reads back through `read_last_log` as `(timestamp, size_bytes, size_lines)`, when the rates, and the path if it is written, hold no tab or line break |
| LogSize.WrittenLineRead | log-size.py:132-153 | the fields of a tab-joined line written with `\n` are read back unchanged |
| LogSize.RateAfterAppend | log-size.py:82-114 | after a record is appended, the next run computes a rate if and only if that record's timestamp is non-zero and differs from the new one |
| LogSize.ParseWc | log-size.py:178-186 | `wc` output split on whitespace, unpacked into four fields and the first three converted with `int`, with the two `ParseError`s; see WcAccepted, WcRoundTrip, WcPathWithSpace |
| LogSize.WcFields | log-size.py:178 | `wc`'s line `lines words bytes path` splits into exactly those four words when the path holds no whitespace |
| LogSize.WcRoundTrip | log-size.py:178-186 | `wc` output with a whitespace-free path parses to `(lines, words, bytes)` |
| LogSize.WcPathWithSpace | log-size.py:178-182 | a path containing whitespace makes five or more fields: the wrong-field-count `ParseError` |
| LogSize.WcAccepted | log-size.py:178-186 | the parse succeeds if and only if there are exactly four fields and the first three are integers; the result is those three integers |
| Conexmon.ParseLine | conexmon.py:96-99 | `parse_line`: the first four tab fields of `line[2:]`, `None` (the unpacking `ValueError`) for fewer; see ParseLineRoundTrip, ParseLineTooFew, DestinationKeepsNewline |
| Conexmon.ParseLineRoundTrip | conexmon.py:96-99 | a marker of two characters followed by tab-joined fields parses to the first four fields; extra fields are dropped |
| Conexmon.DestinationKeepsNewline | conexmon.py:97 | with exactly four fields, the line terminator stays at the end of the destination |
| Conexmon.ParseLineTooFew | conexmon.py:98 | fewer than four fields cannot be unpacked |
| Conexmon.PsEntry | conexmon.py:106-109 | one `ps aux` line split on whitespace: the pid (column 2) and the other nine columns plus the command line, `None` (the `ValueError`) for fewer than ten; see PsTableOk, PsTableKeys |
| Conexmon.PsTable | conexmon.py:102-110 | the dictionary `parse_ps` builds, later lines overwriting earlier ones, or the first line that `fail`s; see ParsePs, PsTableOk, PsTableFirstFailure, PsTableKeys, PsTableLastWins |
| Conexmon.PsTableFailed | conexmon.py:104-108 | once a prefix of the `ps` lines has failed, the whole run fails on the same line |
| Conexmon.ParsePs | conexmon.py:102-110 | the loop returns exactly `PsTable` of the lines |
| Conexmon.PsTableOk | conexmon.py:104-108 | the table is built if and only if every line has at least ten columns |
| Conexmon.PsTableFirstFailure | conexmon.py:104-108 | a failure names the first line with fewer than ten columns |
| Conexmon.PsTableKeys | conexmon.py:109 | the keys of the table are exactly the pids (second columns) of the lines |
| Conexmon.PsTableLastWins | conexmon.py:109 | each pid maps to the entry of the last line carrying it |
| Conexmon.LineStep | conexmon.py:82-93 | one line of `parse_lines`: the unpacking failure, a skip for an unknown pid, the `IndexError` for an empty command line, or the yielded `(proc_info, command, destination, port)`; see ParseOneLine |
| Conexmon.ParseLines | conexmon.py:81-93 | the items the generator yields, and the exception it stops with, if any; see ParseLinesAppend, UnknownPidSkipped, ItemsFromPs |
| Conexmon.ParseLinesAppend | conexmon.py:81-93 | lines `a + b` yield `a`'s items and, unless `a` failed, then `b`'s items and `b`'s outcome |
| Conexmon.UnknownPidSkipped | conexmon.py:83-87 | a line whose pid is not in the table can be removed without changing the outcome |
| Conexmon.ParseOneLine | conexmon.py:81-93 | one well-formed line gives nothing for an unknown pid, an `IndexError` for an empty command line, and otherwise `(proc_info, command, destination, port)` |
| Conexmon.ItemsFromPs | conexmon.py:84-93 | every item carries an entry of the table with a non-empty command line; there are at most as many items as lines |
| Conexmon.FormatOutput | conexmon.py:113-115 | `[command, user, destination, port] + cmdline[:nargs]`; see FormatOutputShape |
| Conexmon.FormatOutputShape | conexmon.py:113-115 | the row is `command, user, destination, port` followed by a prefix of the command line of length `min(nargs, len)` (or `len + nargs` for negative `nargs`) |
| Conexmon.FilterStep | conexmon.py:54-66 | one iteration: drop the header, ignore `- ` lines, buffer `+ ` lines, hand the buffer over at the separator, ignore anything else; see SeparatorIsNeither, Segment, SegmentThenSeparator |
| Conexmon.Run | conexmon.py:51-66 | the loop's state after a sequence of lines; see FilterUpdates, RunAppend, HeaderDiscarded, Conservation, LastSeparator |
| Conexmon.FilterUpdates | conexmon.py:51-66 | the loop's batches and final buffer are exactly those of `Run` over the input |
| Conexmon.SeparatorIsNeither | conexmon.py:56-60 | the separator line is neither a `- ` nor a `+ ` line |
| Conexmon.RunAppend | conexmon.py:53 | feeding `a` and then `b` to the loop is the same as feeding `a + b` |
| Conexmon.HeaderDiscarded | conexmon.py:54-55 | the first line is dropped whatever it says |
| Conexmon.Conservation | conexmon.py:53-64 | after the header, the batches followed by the buffer are all the `+ ` lines, in order; there is one batch per separator |
| Conexmon.Segment | conexmon.py:56-59 | between separators, `+ ` lines are buffered in order and other lines leave the buffer unchanged |
| Conexmon.SegmentThenSeparator | conexmon.py:60-64 | a separator hands the buffer over as one batch and empties it |
| Conexmon.LastSeparator | conexmon.py:53-64 | `+ ` lines after the last separator are still buffered at the end and never handed over; the batches hold exactly the `+ ` lines before it |

## Left out

- Command-line parsing, logging, `fail`'s exit, `BrokenPipeError` handling and printing
  are I/O plumbing. This includes the per-batch print loop at conexmon.py:61-63 with
  `time.time()`.
- Conexmon.FilterUpdates: returns every batch a separator hands over. In the script, an
  exception raised while a batch is joined at line 62 ends `main`. It can come from the
  unpacking at line 98, `cmdline[0]` at line 89 or `fail` at line 108. Later batches are
  then never handed over; the model does not cut them off.
- battery-filter.py `read_log`, the plot subprocess and `round(charge_pct, 2)` are left
  out: they are file reading, a subprocess, and floating point arithmetic or formatting.
  Charge percentages and the tolerance are modelled as exact reals. The script computes
  `full_pct = 100 - tolerance` (line 86) in floating point. For a non-zero float tolerance
  that can differ from the exact `100 - tolerance` by one rounding, so a sample equal to
  the rounded threshold may be classed differently (tolerance `0.7`, charge `99.3`). The
  script's own call (line 55) uses tolerance 0, where the subtraction is exact. A float
  NaN, which a `nan` in the log produces, is not modelled. For NaN both `>=` (line 94) and
  `<` (line 101) are false: before `started` the point is skipped like a full one, and
  after it the point is kept like a non-full one. `IsFull` and its negation cannot express
  that, so `EmptyHistory` does not cover logs with NaN.
- BatteryFilter.FindLastUnplugged: returns a sequence. The script returns the one-shot
  iterator `reversed(last_unplugged)`, which has no length and can be consumed only once.
- log-size.py:
  - the watch loop, with `time.sleep`, `time.time` and `KeyboardInterrupt`;
  - `os.path.getsize`;
  - the `wc` subprocess call;
  - opening and appending to the output file.
  
  Sizes, the timestamp and `wc`'s output are parameters instead.
- log-size.py rates: the arithmetic at lines 115-116 and 123 and the `:0.5f` formatting
  are floating point. The rates are opaque text parameters.
- conexmon.py: `run_netdiff`, the `ps aux` subprocess with `splitlines()`, and the info
  message when the command names differ are left out. The netdiff and `ps` lines are
  parameters.
- PyText.ParseInt: models only an optional sign followed by ASCII digits. Python's
  `int()` also accepts surrounding whitespace, `_` separators and non-ASCII digits.
- LogSize.AssembleFields: writes each number as `str(n)` when it is added. Python
  converts at `print` time, which produces the same text.
- LogSize.AssembleFields: column 1 is the target path's text as given. The normalisation
  `pathlib.Path` applies when it prints a path, such as collapsing `//`, is not modelled.
- LogSize.RecordRoundTrip: assumes the log's previous content ended with a line break.
  Otherwise the appended record would continue the last line.
- The `utillib` helpers (`simplewrap`, `datelib`) are not part of this model.
