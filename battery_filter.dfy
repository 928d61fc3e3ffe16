/** `find_last_unplugged` from battery-filter.py: from a chronological list
    of (timestamp, charge percentage) points, pick the last period during
    which the battery was not fully charged, with some full points around it.

    The scan runs from the newest point backward. Before the first
    non-full point is met (`started` false) nothing is kept; at that point
    `k` the trailing padding is appended; afterwards every point is
    appended until the first full point `b` before `k`, which is appended
    and followed by the leading padding; the list is then reversed.

    Indices are used throughout: `UnpluggedIndices` is the list of input
    positions the code returns, in order, and `LastUnplugged` the points
    at those positions. */
module BatteryFilter {
  import opened PyText

  /** One point of the battery log. */
  datatype Sample = Sample(timestamp: int, chargePct: real)

  /** `full_pct = 100 - tolerance`. */
  function FullPct(tolerance: real): real { 100.0 - tolerance }

  /** The test `charge_pct >= full_pct`; its negation is `charge_pct < full_pct`. */
  predicate IsFull(s: Sample, tolerance: real) { s.chargePct >= FullPct(tolerance) }

  /** The last index below `bound` whose fullness equals `full`, if any. */
  function LastWhere(data: seq<Sample>, bound: nat, tolerance: real, full: bool): (r: Option<nat>)
    requires bound <= |data|
    ensures r.Some? ==> r.value < bound && IsFull(data[r.value], tolerance) == full
    ensures r.Some? ==> forall j :: r.value < j < bound ==> IsFull(data[j], tolerance) != full
    ensures r.None? ==> forall j :: 0 <= j < bound ==> IsFull(data[j], tolerance) != full
    decreases bound
  {
    if bound == 0 then None
    else if IsFull(data[bound - 1], tolerance) == full then Some(bound - 1)
    else LastWhere(data, bound - 1, tolerance, full)
  }

  /** The index list `lo, lo + 1, ..., hi - 1` (empty when `hi <= lo`). */
  function Range(lo: int, hi: int): (r: seq<int>)
  {
    seq(Max(hi - lo, 0), t => lo + t)
  }

  /** Indices appended by the loop at battery-filter.py:105-107 when the last
      non-full point is `k`: from `k` up to `min(k + margin, n - 2)`. */
  function TrailingPart(n: int, k: int, margin: int): seq<int>
  {
    Range(k, Min(k + margin + 1, n - 1))
  }

  /** Indices appended while `started` holds, for the bounding full point `b`
      found before `k`: the leading padding from battery-filter.py:97-99,
      then `b` from line 93, then the rest of the non-full run. Without a
      bounding point the run extends to index 0. */
  function EpisodePart(data: seq<Sample>, k: nat, margin: int, tolerance: real): seq<int>
    requires k <= |data|
  {
    match LastWhere(data, k, tolerance, true)
    case None => Range(0, k)
    case Some(b) => Range(Max(b - margin + 1, 0) + 1, b + 1) + [b] + Range(b + 1, k)
  }

  /** The input positions `find_last_unplugged` returns, oldest first.
      None of them is the final input position. */
  function UnpluggedIndices(data: seq<Sample>, margin: int, tolerance: real): (idx: seq<int>)
    ensures forall t :: 0 <= t < |idx| ==> 0 <= idx[t] < |data| - 1
  {
    match LastWhere(data, |data|, tolerance, false)
    case None => []
    case Some(k) => EpisodePart(data, k, margin, tolerance) + TrailingPart(|data|, k, margin)
  }

  /** Every entry of `idx` is a position of a list of length `n`. */
  predicate ValidPositions(idx: seq<int>, n: int)
  {
    forall t :: 0 <= t < |idx| ==> 0 <= idx[t] < n
  }

  /** The points at the positions `idx`. */
  function Select(data: seq<Sample>, idx: seq<int>): (r: seq<Sample>)
    requires ValidPositions(idx, |data|)
  {
    seq(|idx|, t requires 0 <= t < |idx| => data[idx[t]])
  }

  /** What `find_last_unplugged(battery_data, margin, tolerance)` returns. */
  function LastUnplugged(data: seq<Sample>, margin: int, tolerance: real): seq<Sample>
  {
    Select(data, UnpluggedIndices(data, margin, tolerance))
  }

  /** `reversed(xs)`. */
  function Reverse<T>(xs: seq<T>): seq<T>
  {
    seq(|xs|, t requires 0 <= t < |xs| => xs[|xs| - 1 - t])
  }

  /** The list the scan builds when it appends the points at `rev`'s
      positions from the last to the first (a position outside the data
      contributes nothing). */
  function Appended(data: seq<Sample>, rev: seq<int>): seq<Sample>
    decreases |rev|
  {
    if rev == [] then []
    else if 0 <= rev[0] < |data| then Appended(data, rev[1..]) + [data[rev[0]]]
    else Appended(data, rev[1..])
  }

  lemma AppendedCons(data: seq<Sample>, rev: seq<int>, j: int)
    requires 0 <= j < |data|
    ensures Appended(data, [j] + rev) == Appended(data, rev) + [data[j]]
  {
    assert ([j] + rev)[1..] == rev;
  }

  lemma {:induction false} ReverseAppended(data: seq<Sample>, rev: seq<int>)
    requires ValidPositions(rev, |data|)
    ensures Reverse(Appended(data, rev)) == Select(data, rev)
    decreases |rev|
  {
    if rev != [] {
      ReverseAppended(data, rev[1..]);
      var front := Appended(data, rev[1..]);
      assert Reverse(front + [data[rev[0]]]) == [data[rev[0]]] + Reverse(front);
      assert Select(data, rev) == [data[rev[0]]] + Select(data, rev[1..]);
    }
  }

  lemma ConsRange(lo: int, hi: int, rest: seq<int>)
    requires lo < hi
    ensures [lo] + (Range(lo + 1, hi) + rest) == Range(lo, hi) + rest
  {
    assert [lo] + Range(lo + 1, hi) == Range(lo, hi);
  }

  lemma BoundedEpisode(data: seq<Sample>, margin: int, tolerance: real, k: nat, b: nat)
    requires LastNonFullAt(data, tolerance, k) && BoundAt(data, tolerance, k, b)
    ensures UnpluggedIndices(data, margin, tolerance)
         == Range(Max(b - margin + 1, 0) + 1, b + 1) + [b] + Range(b + 1, k) + TrailingPart(|data|, k, margin)
  {
    LastNonFullIs(data, tolerance, k);
    LastWhereIs(data, k, tolerance, true, b);
    var lead := Range(Max(b - margin + 1, 0) + 1, b + 1);
    assert EpisodePart(data, k, margin, tolerance) == lead + [b] + Range(b + 1, k);
  }

  lemma UnboundedEpisode(data: seq<Sample>, margin: int, tolerance: real, k: nat, trailing: seq<int>)
    requires LastNonFullAt(data, tolerance, k) && RunsToStart(data, tolerance, k)
    requires trailing == TrailingPart(|data|, k, margin)
    ensures UnpluggedIndices(data, margin, tolerance) == Range(0, k) + trailing
  {
    LastNonFullIs(data, tolerance, k);
    assert LastWhere(data, k, tolerance, true) == None;
  }

  /** What the backward scan knows once the points from `i` on have been
      visited: before `started`, all of them are full and nothing has been
      kept; afterwards `k` is the last non-full point, everything from `i`
      to `k` is non-full, and the kept positions are `i .. k - 1` followed
      by the trailing padding. */
  ghost predicate Scanned(data: seq<Sample>, margin: int, tolerance: real, i: int, started: bool,
                          k: int, trailing: seq<int>, rev: seq<int>)
  {
    0 <= i <= |data| &&
    if !started then
      rev == [] && forall j :: i <= j < |data| ==> IsFull(data[j], tolerance)
    else
      i <= k && LastNonFullAt(data, tolerance, k)
      && (forall j :: i <= j < k ==> !IsFull(data[j], tolerance))
      && trailing == TrailingPart(|data|, k, margin) && rev == Range(i, k) + trailing
  }

  /** A full point seen before `started`: nothing changes. */
  lemma ScanIdle(data: seq<Sample>, margin: int, tolerance: real, i: int, k: int, trailing: seq<int>)
    requires 0 <= i && Scanned(data, margin, tolerance, i + 1, false, k, trailing, [])
    requires IsFull(data[i], tolerance)
    ensures Scanned(data, margin, tolerance, i, false, k, trailing, [])
  {
  }

  /** The first non-full point `i` met: it becomes `k`, and the trailing
      padding from `i` on is what has been kept. */
  lemma ScanStart(data: seq<Sample>, margin: int, tolerance: real, i: int, k: int, trailing: seq<int>,
                  rev: seq<int>)
    requires 0 <= i && Scanned(data, margin, tolerance, i + 1, false, k, trailing, [])
    requires !IsFull(data[i], tolerance)
    requires rev == Range(i, Min(i + margin + 1, |data| - 1)) + []
    ensures Scanned(data, margin, tolerance, i, true, i, rev, rev)
  {
    assert Range(i, i) + rev == rev;
  }

  /** A further non-full point of the run is kept in front. */
  lemma ScanRun(data: seq<Sample>, margin: int, tolerance: real, i: int, k: int, trailing: seq<int>,
                rev: seq<int>)
    requires 0 <= i && Scanned(data, margin, tolerance, i + 1, true, k, trailing, rev)
    requires !IsFull(data[i], tolerance)
    ensures Scanned(data, margin, tolerance, i, true, k, trailing, [i] + rev)
  {
    ConsRange(i, k, trailing);
  }

  /** The bounding full point `i`: keeping it and then the leading padding
      completes the result. */
  lemma ScanBound(data: seq<Sample>, margin: int, tolerance: real, i: int, k: int, trailing: seq<int>,
                  rev: seq<int>)
    requires 0 <= i && Scanned(data, margin, tolerance, i + 1, true, k, trailing, rev)
    requires IsFull(data[i], tolerance)
    ensures Range(Max(i - margin + 1, 0) + 1, i + 1) + ([i] + rev) == UnpluggedIndices(data, margin, tolerance)
  {
    assert BoundAt(data, tolerance, k, i);
    BoundedEpisode(data, margin, tolerance, k, i);
    Reassociate(Range(Max(i - margin + 1, 0) + 1, i + 1), i, Range(i + 1, k), trailing);
  }

  /** Regrouping the appended parts; a separate lemma, since the same step
      inside `ScanBound` costs the solver far more. */
  lemma Reassociate(lead: seq<int>, b: int, run: seq<int>, trailing: seq<int>)
    ensures lead + ([b] + (run + trailing)) == lead + [b] + run + trailing
  {
  }

  /** The scan reached the first point without a `break`. */
  lemma ScanExhausted(data: seq<Sample>, margin: int, tolerance: real, started: bool, k: int,
                      trailing: seq<int>, rev: seq<int>)
    requires Scanned(data, margin, tolerance, 0, started, k, trailing, rev)
    ensures rev == UnpluggedIndices(data, margin, tolerance)
  {
    if !started {
      assert LastWhere(data, |data|, tolerance, false) == None;
    } else {
      UnboundedEpisode(data, margin, tolerance, k, trailing);
    }
  }

  /** `for j in range(start, stop, -1): acc.append(battery_data[j])`, the
      shape of both padding loops (battery-filter.py:98-99 and 106-107):
      appends the points at `start`, `start - 1`, ..., `stop + 1`. */
  method AppendCountdown(data: seq<Sample>, acc: seq<Sample>, ghost rev: seq<int>, start: int, stop: int)
    returns (acc': seq<Sample>, ghost rev': seq<int>)
    requires -1 <= stop && start < |data|
    requires acc == Appended(data, rev)
    ensures rev' == Range(stop + 1, start + 1) + rev
    ensures acc' == Appended(data, rev')
  {
    acc', rev' := acc, rev;
    var j := start;
    while j > stop
      invariant j <= start && (j >= stop || j == start)
      invariant rev' == Range(j + 1, start + 1) + rev
      invariant acc' == Appended(data, rev')
    {
      acc' := acc' + [data[j]];
      AppendedCons(data, rev', j);
      ConsRange(j, start + 1, rev);
      rev' := [j] + rev';
      j := j - 1;
    }
    assert Range(j + 1, start + 1) == Range(stop + 1, start + 1);
  }

  /** battery-filter.py:79-108, statement by statement: a backward `for`
      loop with a `started` flag, two countdown loops appending to
      `last_unplugged`, a `break`, and a final `reversed`. */
  method FindLastUnplugged(batteryData: seq<Sample>, margin: int, tolerance: real)
    returns (history: seq<Sample>)
    ensures history == LastUnplugged(batteryData, margin, tolerance)
  {
    var n := |batteryData|;
    var lastUnplugged: seq<Sample> := [];
    var fullPct := 100.0 - tolerance;
    var started := false;
    // the positions of lastUnplugged's points, oldest first
    ghost var rev: seq<int> := [];
    // the position of the last non-full point and the trailing positions, once started
    ghost var k: int := 0;
    ghost var trailing: seq<int> := [];
    // whether the loop ended at the `break`
    ghost var bounded := false;
    for i := n downto 0
      invariant Scanned(batteryData, margin, tolerance, i, started, k, trailing, rev)
      invariant lastUnplugged == Appended(batteryData, rev)
      invariant !bounded
    {
      var sample := batteryData[i];
      if started {
        lastUnplugged := lastUnplugged + [sample];
        AppendedCons(batteryData, rev, i);
        if sample.chargePct >= fullPct {
          ScanBound(batteryData, margin, tolerance, i, k, trailing, rev);
          rev := [i] + rev;
          var end := Max(i - margin + 1, 0);
          lastUnplugged, rev := AppendCountdown(batteryData, lastUnplugged, rev, i, end);
          bounded := true;
          break;
        }
        ScanRun(batteryData, margin, tolerance, i, k, trailing, rev);
        rev := [i] + rev;
      } else if sample.chargePct < fullPct {
        started := true;
        var end := Min(i + margin + 1, n - 1);
        lastUnplugged, rev := AppendCountdown(batteryData, lastUnplugged, rev, end - 1, i - 1);
        ScanStart(batteryData, margin, tolerance, i, k, trailing, rev);
        k, trailing := i, rev;
      } else {
        ScanIdle(batteryData, margin, tolerance, i, k, trailing);
      }
    }
    if !bounded {
      ScanExhausted(batteryData, margin, tolerance, started, k, trailing, rev);
    }
    history := Reverse(lastUnplugged);
    ReverseAppended(batteryData, rev);
  }

  // -----------------------------------------------------------------------
  // The shape of the result
  // -----------------------------------------------------------------------

  /** `k` is the last point below `100 - tolerance`. */
  ghost predicate LastNonFullAt(data: seq<Sample>, tolerance: real, k: int)
  {
    0 <= k < |data| && !IsFull(data[k], tolerance)
    && forall j :: k < j < |data| ==> IsFull(data[j], tolerance)
  }

  /** `b` is the nearest full point before `k`. */
  ghost predicate BoundAt(data: seq<Sample>, tolerance: real, k: int, b: int)
  {
    0 <= b < k <= |data| && IsFull(data[b], tolerance)
    && forall j :: b < j < k ==> !IsFull(data[j], tolerance)
  }

  /** No full point precedes `k`. */
  ghost predicate RunsToStart(data: seq<Sample>, tolerance: real, k: int)
  {
    k <= |data| && forall j :: 0 <= j < k ==> !IsFull(data[j], tolerance)
  }

  /** How many padding points line 98 adds before the bounding point `b`. */
  function LeadLength(b: int, margin: int): int { Min(Max(margin - 1, 0), b) }

  /** How many points lines 105-107 add from `k` onward, `k` included. */
  function TrailLength(n: int, k: int, margin: int): int { Max(Min(margin + 1, n - 1 - k), 0) }

  lemma LastNonFullIs(data: seq<Sample>, tolerance: real, k: int)
    requires LastNonFullAt(data, tolerance, k)
    ensures LastWhere(data, |data|, tolerance, false) == Some(k)
  {
    LastWhereIs(data, |data|, tolerance, false, k);
  }

  /** `LastWhere` finds the one index whose fullness matches and after which
      nothing below `bound` matches. */
  lemma {:induction false} LastWhereIs(data: seq<Sample>, bound: nat, tolerance: real, full: bool, v: int)
    requires 0 <= v < bound <= |data| && IsFull(data[v], tolerance) == full
    requires forall j :: v < j < bound ==> IsFull(data[j], tolerance) != full
    ensures LastWhere(data, bound, tolerance, full) == Some(v)
    decreases bound
  {
    if v < bound - 1 {
      LastWhereIs(data, bound - 1, tolerance, full, v);
    }
  }

  /** With a bounding full point `b`, the returned positions are `a` padding
      positions ending at `b`, then `b` again, then `b + 1, b + 2, ...`
      without a gap: the non-full run up to `k` and the trailing padding. */
  lemma BoundedShape(data: seq<Sample>, margin: int, tolerance: real, k: int, b: int)
    requires LastNonFullAt(data, tolerance, k) && BoundAt(data, tolerance, k, b)
    ensures var idx, a := UnpluggedIndices(data, margin, tolerance), LeadLength(b, margin);
      && |idx| == a + (k - b) + TrailLength(|data|, k, margin)
      && forall t :: 0 <= t < |idx| ==>
           idx[t] == if t < a then b - a + 1 + t else if t == a then b else b + t - a
  {
    BoundedEpisode(data, margin, tolerance, k, b);
    var idx := UnpluggedIndices(data, margin, tolerance);
    var a := LeadLength(b, margin);
    var lead := Range(Max(b - margin + 1, 0) + 1, b + 1);
    var run := Range(b + 1, k);
    var trailing := TrailingPart(|data|, k, margin);
    assert |lead| == a && |run| == k - b - 1;
    forall t | 0 <= t < |idx|
      ensures idx[t] == if t < a then b - a + 1 + t else if t == a then b else b + t - a
    {
      if t < a {
        assert idx[t] == lead[t];
      } else if t == a {
      } else if t < a + 1 + |run| {
        assert idx[t] == run[t - a - 1];
      } else {
        assert idx[t] == trailing[t - a - 1 - |run|];
      }
    }
  }

  /** Without a full point before `k`, the loop runs out at index 0 without
      error and the result is every position from 0 up to the end of the
      trailing padding. */
  lemma UnboundedShape(data: seq<Sample>, margin: int, tolerance: real, k: int)
    requires LastNonFullAt(data, tolerance, k) && RunsToStart(data, tolerance, k)
    ensures UnpluggedIndices(data, margin, tolerance) == Range(0, k + TrailLength(|data|, k, margin))
  {
    UnboundedEpisode(data, margin, tolerance, k, TrailingPart(|data|, k, margin));
  }

  // -----------------------------------------------------------------------
  // Properties of find_last_unplugged
  // -----------------------------------------------------------------------

  /** The result is empty exactly when no point is below `100 - tolerance`
      (so `started` never becomes true), or when the only such point is
      the first one and no trailing padding fits after it. */
  lemma EmptyHistory(data: seq<Sample>, margin: int, tolerance: real)
    ensures LastUnplugged(data, margin, tolerance) == [] <==>
      (forall j :: 0 <= j < |data| ==> IsFull(data[j], tolerance))
      || (|data| > 0 && !IsFull(data[0], tolerance)
          && (forall j :: 0 < j < |data| ==> IsFull(data[j], tolerance))
          && (margin < 0 || |data| == 1))
  {
    match LastWhere(data, |data|, tolerance, false)
    case None =>
    case Some(k) =>
      if k == 0 {
        UnboundedShape(data, margin, tolerance, k);
      } else {
        var b := LastWhere(data, k, tolerance, true);
        if b.Some? {
          BoundedShape(data, margin, tolerance, k, b.value);
        } else {
          UnboundedShape(data, margin, tolerance, k);
        }
      }
  }

  /** A list of positions of the shape `BoundedShape` gives is ordered and
      repeats only `b`, at places `a - 1` and `a`. */
  lemma ShapeOrdered(idx: seq<int>, a: int, b: int)
    requires 0 <= a < |idx|
    requires forall t :: 0 <= t < |idx| ==>
      idx[t] == if t < a then b - a + 1 + t else if t == a then b else b + t - a
    ensures forall s, t :: 0 <= s < t < |idx| ==> idx[s] <= idx[t]
    ensures forall s, t :: 0 <= s < t < |idx| && idx[s] == idx[t] ==> t == a && s == a - 1
  {
  }

  /** Positions never go backward. A position is repeated only at two
      neighbouring places, and only the bounding full point (a full point
      followed by a non-full one) is repeated. */
  lemma HistoryOrdered(data: seq<Sample>, margin: int, tolerance: real)
    ensures var idx := UnpluggedIndices(data, margin, tolerance);
      forall s, t :: 0 <= s < t < |idx| ==> idx[s] <= idx[t]
    ensures var idx := UnpluggedIndices(data, margin, tolerance);
      forall s, t :: 0 <= s < t < |idx| && idx[s] == idx[t] ==>
        t == s + 1 && IsFull(data[idx[s]], tolerance) && !IsFull(data[idx[s] + 1], tolerance)
  {
    var idx := UnpluggedIndices(data, margin, tolerance);
    match LastWhere(data, |data|, tolerance, false)
    case None =>
    case Some(k) =>
      var b := LastWhere(data, k, tolerance, true);
      if b.Some? {
        BoundedShape(data, margin, tolerance, k, b.value);
        ShapeOrdered(idx, LeadLength(b.value, margin), b.value);
        assert b.value + 1 == k || b.value + 1 < k;
      } else {
        UnboundedShape(data, margin, tolerance, k);
      }
  }

  /** The bounding point is returned twice exactly when `margin >= 2` and it
      is not the first point. */
  lemma RepeatedBound(data: seq<Sample>, margin: int, tolerance: real, k: int, b: int)
    requires LastNonFullAt(data, tolerance, k) && BoundAt(data, tolerance, k, b)
    ensures var idx := UnpluggedIndices(data, margin, tolerance);
      (exists s :: 0 <= s < |idx| - 1 && idx[s] == idx[s + 1]) <==> margin >= 2 && b >= 1
  {
    BoundedShape(data, margin, tolerance, k, b);
    var idx := UnpluggedIndices(data, margin, tolerance);
    var a := LeadLength(b, margin);
    if margin >= 2 && b >= 1 {
      assert idx[a - 1] == idx[a];
    }
  }

  /** Every point of the non-full run, from the bounding full point up to
      `k`, is returned; `k` itself is returned exactly when `margin >= 0`
      and `k` is not the final point. */
  lemma EpisodeReturned(data: seq<Sample>, margin: int, tolerance: real, k: int, b: int)
    requires LastNonFullAt(data, tolerance, k) && BoundAt(data, tolerance, k, b)
    ensures var idx := UnpluggedIndices(data, margin, tolerance);
      forall j :: b <= j < k ==> j in idx
    ensures k in UnpluggedIndices(data, margin, tolerance) <==> margin >= 0 && k < |data| - 1
  {
    BoundedShape(data, margin, tolerance, k, b);
    var idx := UnpluggedIndices(data, margin, tolerance);
    var a := LeadLength(b, margin);
    forall j | b <= j < k
      ensures j in idx
    {
      assert idx[a + j - b] == j;
    }
    if margin >= 0 && k < |data| - 1 {
      assert idx[a + k - b] == k;
    }
  }

  /** After `k` come exactly `max(0, min(margin, n - 2 - k))` points, all
      full, at the end of the result; the final input point is never among
      them. */
  lemma TrailingPadding(data: seq<Sample>, margin: int, tolerance: real, k: int)
    requires LastNonFullAt(data, tolerance, k)
    ensures var idx, m := UnpluggedIndices(data, margin, tolerance), Max(0, Min(margin, |data| - 2 - k));
      && m <= |idx|
      && (forall t :: 0 <= t < |idx| ==> (idx[t] > k <==> t >= |idx| - m))
      && (forall t :: 0 <= t < |idx| && idx[t] > k ==> IsFull(data[idx[t]], tolerance))
  {
    LastNonFullIs(data, tolerance, k);
    var b := LastWhere(data, k, tolerance, true);
    if b.Some? {
      BoundedShape(data, margin, tolerance, k, b.value);
    } else {
      UnboundedShape(data, margin, tolerance, k);
    }
  }

  /** Before the non-full run come `1 + min(max(margin - 1, 0), b)` points:
      padding ending at `b`, then `b` again. Padding never reaches index
      `max(b - margin + 1, 0)` or anything below it, so in particular index
      0 is never padding, and earlier points are left out. */
  lemma LeadingPadding(data: seq<Sample>, margin: int, tolerance: real, k: int, b: int)
    requires LastNonFullAt(data, tolerance, k) && BoundAt(data, tolerance, k, b)
    ensures var idx, a := UnpluggedIndices(data, margin, tolerance), 1 + Min(Max(margin - 1, 0), b);
      && a <= |idx| && idx[a - 1] == b
      && (forall t :: 0 <= t < |idx| ==> (idx[t] <= b <==> t < a))
      && (forall t :: 0 <= t < |idx| && idx[t] < b ==> Max(b - margin + 1, 0) < idx[t])
  {
    BoundedShape(data, margin, tolerance, k, b);
  }

  // -----------------------------------------------------------------------
  // Worked examples (charge percentages only; timestamps are 0, 1, ...)
  // -----------------------------------------------------------------------

  /** Margin 1: one full point on each side of the discharge 80, 60. */
  lemma ExampleMarginOne()
    ensures var data := [Sample(0, 100.0), Sample(1, 100.0), Sample(2, 80.0), Sample(3, 60.0),
                         Sample(4, 100.0), Sample(5, 100.0), Sample(6, 100.0)];
      LastUnplugged(data, 1, 0.0) == [Sample(1, 100.0), Sample(2, 80.0), Sample(3, 60.0), Sample(4, 100.0)]
  {
    var data := [Sample(0, 100.0), Sample(1, 100.0), Sample(2, 80.0), Sample(3, 60.0),
                 Sample(4, 100.0), Sample(5, 100.0), Sample(6, 100.0)];
    BoundedEpisode(data, 1, 0.0, 3, 1);
    assert UnpluggedIndices(data, 1, 0.0) == [1, 2, 3, 4];
  }

  /** The final point is never returned, even with room for padding. */
  lemma ExampleFinalPointDropped()
    ensures LastUnplugged([Sample(0, 60.0), Sample(1, 100.0)], 5, 0.0) == [Sample(0, 60.0)]
  {
    var data := [Sample(0, 60.0), Sample(1, 100.0)];
    UnboundedEpisode(data, 5, 0.0, 0, TrailingPart(2, 0, 5));
    assert UnpluggedIndices(data, 5, 0.0) == [0];
  }

  /** Margin 0 still keeps the bounding full point and the last non-full
      one. */
  lemma ExampleMarginZero()
    ensures var data := [Sample(0, 100.0), Sample(1, 50.0), Sample(2, 100.0), Sample(3, 100.0),
                         Sample(4, 40.0), Sample(5, 100.0)];
      LastUnplugged(data, 0, 0.0) == [Sample(3, 100.0), Sample(4, 40.0)]
  {
    var data := [Sample(0, 100.0), Sample(1, 50.0), Sample(2, 100.0), Sample(3, 100.0),
                 Sample(4, 40.0), Sample(5, 100.0)];
    BoundedEpisode(data, 0, 0.0, 4, 3);
    assert UnpluggedIndices(data, 0, 0.0) == [3, 4];
  }

  /** Margin 2: the bounding full point comes out twice. */
  lemma ExampleRepeatedBound()
    ensures var data := [Sample(0, 100.0), Sample(1, 100.0), Sample(2, 50.0), Sample(3, 100.0), Sample(4, 100.0)];
      LastUnplugged(data, 2, 0.0) == [Sample(1, 100.0), Sample(1, 100.0), Sample(2, 50.0), Sample(3, 100.0)]
  {
    var data := [Sample(0, 100.0), Sample(1, 100.0), Sample(2, 50.0), Sample(3, 100.0), Sample(4, 100.0)];
    BoundedEpisode(data, 2, 0.0, 2, 1);
    assert UnpluggedIndices(data, 2, 0.0) == [1, 1, 2, 3];
  }

  /** A single non-full point is the final point, so nothing is returned. */
  lemma ExampleSingleActive(margin: int)
    ensures LastUnplugged([Sample(0, 50.0)], margin, 0.0) == []
  {
    UnboundedShape([Sample(0, 50.0)], margin, 0.0, 0);
  }

  /** A point at exactly `100 - tolerance` is full: with tolerance 0.5 the
      point at 99.5 starts no period, with tolerance 0.25 it does. */
  lemma ExampleThreshold()
    ensures LastUnplugged([Sample(0, 100.0), Sample(1, 99.5), Sample(2, 100.0)], 5, 0.5) == []
    ensures LastUnplugged([Sample(0, 100.0), Sample(1, 99.5), Sample(2, 100.0)], 5, 0.25)
         == [Sample(0, 100.0), Sample(1, 99.5)]
  {
    var data := [Sample(0, 100.0), Sample(1, 99.5), Sample(2, 100.0)];
    EmptyHistory(data, 5, 0.5);
    BoundedEpisode(data, 5, 0.25, 1, 0);
    assert UnpluggedIndices(data, 5, 0.25) == [0, 1];
  }

  /** Filtering a list of the points of a result again can shorten it: the
      result is not a fixed point. */
  lemma ExampleNotIdempotent()
    ensures var once := [Sample(1, 100.0), Sample(2, 80.0), Sample(3, 60.0), Sample(4, 100.0)];
      LastUnplugged(once, 1, 0.0) == [Sample(1, 100.0), Sample(2, 80.0), Sample(3, 60.0)] != once
  {
    var once := [Sample(1, 100.0), Sample(2, 80.0), Sample(3, 60.0), Sample(4, 100.0)];
    BoundedEpisode(once, 1, 0.0, 2, 0);
    assert UnpluggedIndices(once, 1, 0.0) == [0, 1, 2];
  }

  /** Leading padding does not look at charge: a non-full point before the
      bounding one is returned as padding. */
  lemma ExampleActivePadding()
    ensures var data := [Sample(0, 100.0), Sample(1, 50.0), Sample(2, 100.0), Sample(3, 60.0), Sample(4, 100.0)];
      LastUnplugged(data, 5, 0.0) == [Sample(1, 50.0), Sample(2, 100.0), Sample(2, 100.0), Sample(3, 60.0)]
  {
    var data := [Sample(0, 100.0), Sample(1, 50.0), Sample(2, 100.0), Sample(3, 60.0), Sample(4, 100.0)];
    BoundedEpisode(data, 5, 0.0, 3, 2);
    assert UnpluggedIndices(data, 5, 0.0) == [1, 2, 2, 3];
  }
}
