/** Intent intervals (verify-rs/src/action.rs): the independently proven time of each checkpoint, clamped
    to the earliest time proven for any checkpoint that contains it, and the interval of a leaf. */
module Intervals {
  import opened Bytes
  import opened CivilTime

  /** An anchor or time-stamp record: the checkpoint it names and the time it proves. */
  datatype TimeRecord = TimeRecord(checkpoint: Option<Bytes>, time: Option<Bytes>)

  /** A presented checkpoint: its body hash and tree size, when it has them. */
  datatype Presented = Presented(bodyHash: Option<Bytes>, size: Option<int>)

  datatype Time = Time(norm: Bytes, raw: Bytes)
  {
    predicate Valid() { Nts(raw) == Some(norm) }
  }

  datatype Row = Row(size: int, time: Time)

  // ----- earliest proven time per checkpoint

  predicate Proves(r: TimeRecord, h: Bytes, t: Time) {
    r.checkpoint == Some(h) && r.time == Some(t.raw) && t.Valid()
  }

  /** `times` holds, for every checkpoint some record times, a time some record proves, and no record
      proves an earlier one. */
  ghost predicate Earliest(records: seq<TimeRecord>, times: map<Bytes, Time>) {
    && (forall h | h in times :: exists r | r in records :: Proves(r, h, times[h]))
    && (forall r, h, t | r in records && Proves(r, h, t) :: h in times && AtMost(times[h].norm, t.norm))
  }

  method IndependentTimes(anchors: seq<TimeRecord>, stamps: seq<TimeRecord>) returns (times: map<Bytes, Time>)
    ensures Earliest(anchors + stamps, times)
  {
    times := map[];
    var records := anchors + stamps;
    for i := 0 to |records|
      invariant Earliest(records[..i], times)
    {
      ghost var before := times;
      var r := records[i];
      if r.checkpoint.Some? && r.time.Some? && Nts(r.time.value).Some? {
        var h, t := r.checkpoint.value, Time(Nts(r.time.value).value, r.time.value);
        if h !in times || Less(t.norm, times[h].norm) {
          times := times[h := t];
        }
      }
      RecordKeeps(records, i, before, times);
    }
    assert records[..|records|] == records;
  }

  lemma {:induction false} RecordKeeps(records: seq<TimeRecord>, i: nat, before: map<Bytes, Time>, times: map<Bytes, Time>)
    requires i < |records| && Earliest(records[..i], before)
    requires var r := records[i];
             if r.checkpoint.Some? && r.time.Some? && Nts(r.time.value).Some? then
               var h, t := r.checkpoint.value, Time(Nts(r.time.value).value, r.time.value);
               times == if h !in before || Less(t.norm, before[h].norm) then before[h := t] else before
             else times == before
    ensures Earliest(records[..i + 1], times)
  {
    hide Nts, Less;
    var r := records[i];
    assert records[..i + 1] == records[..i] + [r];
    forall h | h in times ensures exists q | q in records[..i + 1] :: Proves(q, h, times[h]) {
      if h in before && times[h] == before[h] {
        var q :| q in records[..i] && Proves(q, h, before[h]);
        assert q in records[..i + 1];
      } else {
        assert r in records[..i + 1] && Proves(r, h, times[h]);
      }
    }
    forall q, h, t | q in records[..i + 1] && Proves(q, h, t) ensures h in times && AtMost(times[h].norm, t.norm) {
      if q in records[..i] {
        if times[h] != before[h] {
          LessAtMost(times[h].norm, before[h].norm, t.norm);
        }
      } else {
        LessIrreflexive(t.norm);
      }
    }
  }

  lemma {:induction false} LessAtMost(a: Bytes, b: Bytes, c: Bytes)
    requires Less(a, b) && AtMost(b, c)
    ensures AtMost(a, c)
  {
    LessAsymmetric(a, b);
    AtMostTransitive(a, b, c);
  }

  // ----- rows by tree size

  function InsertRow(x: Row, rows: seq<Row>): seq<Row> {
    if rows == [] || x.size <= rows[0].size then [x] + rows else [rows[0]] + InsertRow(x, rows[1..])
  }

  /** The stable sort by tree size. */
  function SortRows(rows: seq<Row>): seq<Row> {
    if rows == [] then [] else InsertRow(rows[0], SortRows(rows[1..]))
  }

  predicate BySize(rows: seq<Row>) {
    forall i, j :: 0 <= i < j < |rows| ==> rows[i].size <= rows[j].size
  }

  lemma {:induction false} InsertRowKeeps(x: Row, rows: seq<Row>)
    ensures multiset(InsertRow(x, rows)) == multiset{x} + multiset(rows)
    ensures forall y :: y in InsertRow(x, rows) <==> y == x || y in rows
  {
    if !(rows == [] || x.size <= rows[0].size) {
      InsertRowKeeps(x, rows[1..]);
      assert rows == [rows[0]] + rows[1..];
    }
  }

  lemma {:induction false} InsertRowSorted(x: Row, rows: seq<Row>)
    requires BySize(rows)
    ensures BySize(InsertRow(x, rows))
  {
    if !(rows == [] || x.size <= rows[0].size) {
      var rest := InsertRow(x, rows[1..]);
      InsertRowSorted(x, rows[1..]);
      InsertRowKeeps(x, rows[1..]);
      forall j | 0 <= j < |rest| ensures rows[0].size <= rest[j].size {
        assert rest[j] in rest;
      }
    }
  }

  lemma {:induction false} SortRowsSorts(rows: seq<Row>)
    ensures BySize(SortRows(rows)) && multiset(SortRows(rows)) == multiset(rows)
    ensures forall y :: y in SortRows(rows) <==> y in rows
  {
    if rows != [] {
      SortRowsSorts(rows[1..]);
      InsertRowKeeps(rows[0], SortRows(rows[1..]));
      InsertRowSorted(rows[0], SortRows(rows[1..]));
      assert rows == [rows[0]] + rows[1..];
    }
  }

  function TimedRows(times: map<Bytes, Time>, chain: seq<Presented>): seq<Row> {
    if chain == [] then []
    else
      var rest := TimedRows(times, chain[1..]);
      var cp := chain[0];
      if cp.bodyHash.Some? && cp.bodyHash.value in times && cp.size.Some?
      then [Row(cp.size.value, times[cp.bodyHash.value])] + rest
      else rest
  }

  // ----- the clamp

  /** `r` is the suffix minimum of `rows` at i, with the spelling of a row that attains it. */
  ghost predicate SuffixMin(rows: seq<Row>, i: nat, r: Row)
    requires i < |rows|
  {
    && r.size == rows[i].size
    && (exists k | i <= k < |rows| :: r.time == rows[k].time)
    && (forall k | i <= k < |rows| :: AtMost(r.time.norm, rows[k].time.norm))
  }

  /** Walks the rows backwards, lowering each to the earliest time seen so far. */
  method Clamp(rows: array<Row>)
    modifies rows
    ensures forall i | 0 <= i < rows.Length :: SuffixMin(old(rows[..]), i, rows[i])
  {
    ghost var was := rows[..];
    var earliest: Option<Time> := None;
    for i := rows.Length downto 0
      invariant forall k | 0 <= k < i :: rows[k] == was[k]
      invariant forall k | i <= k < rows.Length :: SuffixMin(was, k, rows[k])
      invariant earliest.None? <==> i == rows.Length
      invariant earliest.Some? ==> earliest.value == rows[i].time
    {
      if earliest.Some? && Less(earliest.value.norm, rows[i].time.norm) {
        rows[i] := rows[i].(time := earliest.value);
      }
      earliest := Some(rows[i].time);
      ClampStep(was, i, rows[i], if i + 1 < rows.Length then Some(rows[i + 1]) else None);
    }
  }

  lemma {:induction false} ClampStep(was: seq<Row>, i: nat, r: Row, next: Option<Row>)
    requires i < |was| && (next.Some? <==> i + 1 < |was|)
    requires next.Some? ==> SuffixMin(was, i + 1, next.value)
    requires r == if next.Some? && Less(next.value.time.norm, was[i].time.norm) then was[i].(time := next.value.time) else was[i]
    ensures SuffixMin(was, i, r)
  {
    hide Less;
    LessIrreflexive(was[i].time.norm);
    if next.Some? {
      var e := next.value.time;
      if Less(e.norm, was[i].time.norm) {
        LessAsymmetric(e.norm, was[i].time.norm);
        var k :| i + 1 <= k < |was| && e == was[k].time;
      } else {
        forall k | i <= k < |was| ensures AtMost(r.time.norm, was[k].time.norm) {
          if i < k {
            AtMostTransitive(was[i].time.norm, e.norm, was[k].time.norm);
          }
        }
      }
    }
  }

  /** Clamped rows: suffix minima of the timed rows in tree-size order. */
  ghost predicate Clamped(times: map<Bytes, Time>, chain: seq<Presented>, rows: seq<Row>) {
    var sorted := SortRows(TimedRows(times, chain));
    |rows| == |sorted| && forall i | 0 <= i < |rows| :: SuffixMin(sorted, i, rows[i])
  }

  method CollectRows(times: map<Bytes, Time>, chain: seq<Presented>) returns (timed: seq<Row>)
    ensures timed == TimedRows(times, chain)
  {
    timed := [];
    assert chain[0..] == chain;
    for i := 0 to |chain|
      invariant timed + TimedRows(times, chain[i..]) == TimedRows(times, chain)
    {
      assert chain[i..][1..] == chain[i + 1..];
      var cp := chain[i];
      if cp.bodyHash.Some? && cp.bodyHash.value in times && cp.size.Some? {
        timed := timed + [Row(cp.size.value, times[cp.bodyHash.value])];
      }
    }
    assert timed + [] == timed;
  }

  method ClampedTimes(times: map<Bytes, Time>, chain: seq<Presented>) returns (rows: seq<Row>)
    ensures Clamped(times, chain, rows)
  {
    hide SortRows, TimedRows, SuffixMin;
    var timed := CollectRows(times, chain);
    var sorted := SortRows(timed);
    var a := new Row[|sorted|](i requires 0 <= i < |sorted| => sorted[i]);
    assert a[..] == sorted;
    Clamp(a);
    rows := a[..];
  }

  lemma {:induction false} TimedRowsValid(times: map<Bytes, Time>, chain: seq<Presented>)
    requires forall h | h in times :: times[h].Valid()
    ensures forall r | r in TimedRows(times, chain) :: r.time.Valid()
  {
    hide Nts;
    if chain != [] {
      TimedRowsValid(times, chain[1..]);
    }
  }

  /** Clamped rows are in tree-size order, their times never decrease, and each carries a spelling that
      still normalises to its time. */
  lemma {:induction false} ClampedOrdered(times: map<Bytes, Time>, chain: seq<Presented>, rows: seq<Row>)
    requires Clamped(times, chain, rows) && forall h | h in times :: times[h].Valid()
    ensures BySize(rows)
    ensures forall i, j | 0 <= i < j < |rows| :: AtMost(rows[i].time.norm, rows[j].time.norm)
    ensures forall i | 0 <= i < |rows| :: rows[i].time.Valid()
  {
    hide Nts, Less, AtMost;
    var timed := TimedRows(times, chain);
    var sorted := SortRows(timed);
    SortRowsSorts(timed);
    TimedRowsValid(times, chain);
    forall i | 0 <= i < |rows| ensures rows[i].time.Valid() && rows[i].size == sorted[i].size {
      assert SuffixMin(sorted, i, rows[i]);
      var k :| i <= k < |sorted| && rows[i].time == sorted[k].time;
      assert sorted[k] in timed;
    }
    forall i, j | 0 <= i < j < |rows| ensures AtMost(rows[i].time.norm, rows[j].time.norm) {
      assert SuffixMin(sorted, i, rows[i]) && SuffixMin(sorted, j, rows[j]);
      var k :| j <= k < |sorted| && rows[j].time == sorted[k].time;
    }
  }

  // ----- the interval of a leaf

  datatype Interval = Interval(lower: Option<Bytes>, upper: Option<Bytes>)

  /** Rows of size at most the leaf index: the split point of the ordered rows. */
  function CountUpTo(rows: seq<Row>, leaf: int): (n: nat)
    ensures n <= |rows|
  {
    if rows == [] then 0 else if rows[0].size <= leaf then 1 + CountUpTo(rows[1..], leaf) else 0
  }

  /** The last row of size at most the leaf, and the first of a greater size. */
  function IntervalAt(rows: seq<Row>, leaf: int): Interval {
    var n := CountUpTo(rows, leaf);
    Interval(if n > 0 then Some(rows[n - 1].time.raw) else None, if n < |rows| then Some(rows[n].time.raw) else None)
  }

  lemma {:induction false} CountSplits(rows: seq<Row>, leaf: int)
    requires BySize(rows)
    ensures forall i | 0 <= i < |rows| :: rows[i].size <= leaf <==> i < CountUpTo(rows, leaf)
  {
    if rows != [] {
      CountSplits(rows[1..], leaf);
      forall i | 0 <= i < |rows| ensures rows[i].size <= leaf <==> i < CountUpTo(rows, leaf) {
        assert i > 0 ==> rows[i] == rows[1..][i - 1];
      }
    }
  }

  method IntervalFor(rows: seq<Row>, leaf: int) returns (interval: Interval)
    requires BySize(rows)
    ensures interval == IntervalAt(rows, leaf)
  {
    var lower: Option<Bytes>, upper: Option<Bytes> := None, None;
    CountSplits(rows, leaf);
    ghost var n := CountUpTo(rows, leaf);
    for i := 0 to |rows|
      invariant lower == if 0 < i <= n then Some(rows[i - 1].time.raw) else if n > 0 && i > n then Some(rows[n - 1].time.raw) else None
      invariant upper == if i > n then Some(rows[n].time.raw) else None
    {
      if rows[i].size <= leaf {
        lower := Some(rows[i].time.raw);
      } else if upper.None? {
        upper := Some(rows[i].time.raw);
      }
    }
    interval := Interval(lower, upper);
  }

  lemma {:induction false} CountMonotone(rows: seq<Row>, leaf: int, later: int)
    requires BySize(rows) && leaf <= later
    ensures CountUpTo(rows, leaf) <= CountUpTo(rows, later)
  {
    if rows != [] {
      CountMonotone(rows[1..], leaf, later);
    }
  }

  ghost predicate NotAfter(a: Option<Bytes>, b: Option<Bytes>) {
    a.Some? && b.Some? ==> Nts(a.value).Some? && Nts(b.value).Some? && AtMost(Nts(a.value).value, Nts(b.value).value)
  }

  lemma {:induction false} RowsNotAfter(rows: seq<Row>, i: nat, j: nat)
    requires i <= j < |rows|
    requires forall i, j | 0 <= i < j < |rows| :: AtMost(rows[i].time.norm, rows[j].time.norm)
    requires forall i | 0 <= i < |rows| :: rows[i].time.Valid()
    ensures NotAfter(Some(rows[i].time.raw), Some(rows[j].time.raw))
  {
    hide Nts, Less;
    LessIrreflexive(rows[i].time.norm);
  }

  /** No interval is inverted, and both bounds only move forward as the leaf index grows: a lower bound
      once present stays present, an upper bound once absent stays absent. */
  lemma {:induction false} IntervalsOrdered(times: map<Bytes, Time>, chain: seq<Presented>, rows: seq<Row>, leaf: int, later: int)
    requires Clamped(times, chain, rows) && (forall h | h in times :: times[h].Valid()) && leaf <= later
    ensures var a, b := IntervalAt(rows, leaf), IntervalAt(rows, later);
            && NotAfter(a.lower, a.upper)
            && NotAfter(a.lower, b.lower) && NotAfter(a.upper, b.upper)
            && (a.lower.Some? ==> b.lower.Some?) && (b.upper.Some? ==> a.upper.Some?)
  {
    hide Nts, Less, NotAfter, CountUpTo, Clamped;
    ClampedOrdered(times, chain, rows);
    CountMonotone(rows, leaf, later);
    var m, n := CountUpTo(rows, leaf), CountUpTo(rows, later);
    if 0 < m < |rows| {
      RowsNotAfter(rows, m - 1, m);
    } else {
      VacuousBound(IntervalAt(rows, leaf));
    }
    if 0 < m {
      RowsNotAfter(rows, m - 1, n - 1);
    } else {
      AbsentBound(IntervalAt(rows, later).lower);
    }
    if n < |rows| {
      RowsNotAfter(rows, m, n);
    } else {
      AbsentBound(IntervalAt(rows, leaf).upper);
    }
  }

  lemma {:induction false} VacuousBound(i: Interval)
    ensures i.lower.None? || i.upper.None? ==> NotAfter(i.lower, i.upper)
  {
  }

  lemma {:induction false} AbsentBound(b: Option<Bytes>)
    ensures NotAfter(None, b) && NotAfter(b, None)
  {
  }

  /** The times the map holds are spellings of themselves. */
  lemma {:induction false} EarliestValid(records: seq<TimeRecord>, times: map<Bytes, Time>)
    requires Earliest(records, times)
    ensures forall h | h in times :: times[h].Valid()
  {
    hide Nts;
  }

  // ----- what the bounds of a leaf mean

  /** Some record proves the time for a presented checkpoint that contains the leaf. */
  ghost predicate ProvenAbove(records: seq<TimeRecord>, chain: seq<Presented>, leaf: int, t: Time) {
    exists cp, r | cp in chain && r in records ::
      cp.bodyHash.Some? && cp.size.Some? && cp.size.value > leaf && Proves(r, cp.bodyHash.value, t)
  }

  ghost predicate IsTimed(times: map<Bytes, Time>, cp: Presented, row: Row) {
    cp.bodyHash.Some? && cp.bodyHash.value in times && cp.size.Some? && row == Row(cp.size.value, times[cp.bodyHash.value])
  }

  lemma {:induction false} TimedRowsFrom(times: map<Bytes, Time>, chain: seq<Presented>, row: Row)
    ensures row in TimedRows(times, chain) <==> exists cp | cp in chain :: IsTimed(times, cp, row)
  {
    if chain != [] {
      TimedRowsFrom(times, chain[1..], row);
      assert chain[0] in chain && forall cp | cp in chain[1..] :: cp in chain;
      if row in TimedRows(times, chain) && !IsTimed(times, chain[0], row) {
        assert row in TimedRows(times, chain[1..]);
      }
      if exists cp | cp in chain :: IsTimed(times, cp, row) {
        var cp :| cp in chain && IsTimed(times, cp, row);
        assert cp == chain[0] || cp in chain[1..];
      }
    }
  }

  lemma {:induction false} SameSizes(times: map<Bytes, Time>, chain: seq<Presented>, rows: seq<Row>)
    requires Clamped(times, chain, rows)
    ensures var sorted := SortRows(TimedRows(times, chain));
            |rows| == |sorted| && BySize(rows) && forall k | 0 <= k < |rows| :: rows[k].size == sorted[k].size
    ensures forall row :: row in SortRows(TimedRows(times, chain)) <==> row in TimedRows(times, chain)
  {
    hide SortRows, TimedRows, Less;
    SortRowsSorts(TimedRows(times, chain));
  }

  /** Every time proven for a checkpoint that contains the leaf is at or after the upper bound. */
  lemma {:induction false} UpperIsLeast(records: seq<TimeRecord>, times: map<Bytes, Time>, chain: seq<Presented>, rows: seq<Row>, leaf: int, t: Time)
    requires Earliest(records, times) && Clamped(times, chain, rows) && ProvenAbove(records, chain, leaf, t)
    ensures CountUpTo(rows, leaf) < |rows| && AtMost(rows[CountUpTo(rows, leaf)].time.norm, t.norm)
  {
    hide SortRows, TimedRows, Less, Nts, AtMost, CountUpTo;
    var cp, r :| cp in chain && r in records && cp.bodyHash.Some? && cp.size.Some? && cp.size.value > leaf && Proves(r, cp.bodyHash.value, t);
    var h := cp.bodyHash.value;
    assert h in times && AtMost(times[h].norm, t.norm);
    var row := Row(cp.size.value, times[h]);
    assert IsTimed(times, cp, row);
    TimedRowsFrom(times, chain, row);
    SameSizes(times, chain, rows);
    CountSplits(rows, leaf);
    var sorted, n := SortRows(TimedRows(times, chain)), CountUpTo(rows, leaf);
    var k :| 0 <= k < |sorted| && sorted[k] == row;
    assert SuffixMin(sorted, n, rows[n]);
    AtMostTransitive(rows[n].time.norm, times[h].norm, t.norm);
  }

  /** The upper bound of a leaf is the earliest time any record proves for any presented checkpoint that
      contains the leaf: some record proves it, none proves an earlier one, and it is absent only if none
      proves any. */
  lemma {:induction false} UpperIsEarliestProof(records: seq<TimeRecord>, times: map<Bytes, Time>, chain: seq<Presented>, rows: seq<Row>, leaf: int)
    requires Earliest(records, times) && Clamped(times, chain, rows)
    ensures var upper := IntervalAt(rows, leaf).upper;
            && (upper.Some? ==> exists t: Time :: t.raw == upper.value && t.Valid() && ProvenAbove(records, chain, leaf, t))
            && (forall t: Time | ProvenAbove(records, chain, leaf, t) ::
                  upper.Some? && Nts(upper.value).Some? && AtMost(Nts(upper.value).value, t.norm))
  {
    hide SortRows, TimedRows, Less, Nts, AtMost, CountUpTo;
    EarliestValid(records, times);
    ClampedOrdered(times, chain, rows);
    var n := CountUpTo(rows, leaf);
    forall t | ProvenAbove(records, chain, leaf, t)
      ensures n < |rows| && AtMost(rows[n].time.norm, t.norm)
    {
      UpperIsLeast(records, times, chain, rows, leaf, t);
    }
    if n < |rows| {
      UpperIsProven(records, times, chain, rows, leaf);
    }
  }

  lemma {:induction false} UpperIsProven(records: seq<TimeRecord>, times: map<Bytes, Time>, chain: seq<Presented>, rows: seq<Row>, leaf: int)
    requires Earliest(records, times) && Clamped(times, chain, rows) && CountUpTo(rows, leaf) < |rows|
    ensures ProvenAbove(records, chain, leaf, rows[CountUpTo(rows, leaf)].time)
  {
    hide SortRows, TimedRows, Less, Nts, AtMost, CountUpTo;
    SameSizes(times, chain, rows);
    CountSplits(rows, leaf);
    var sorted, n := SortRows(TimedRows(times, chain)), CountUpTo(rows, leaf);
    assert SuffixMin(sorted, n, rows[n]);
    var k :| n <= k < |sorted| && rows[n].time == sorted[k].time;
    assert sorted[k] in sorted && rows[k].size > leaf;
    TimedRowsFrom(times, chain, sorted[k]);
    var cp :| cp in chain && IsTimed(times, cp, sorted[k]);
    var h := cp.bodyHash.value;
    var r :| r in records && Proves(r, h, times[h]);
    assert Proves(r, cp.bodyHash.value, rows[n].time);
  }

  // ----- the lower bound

  /** The last row of this size. */
  function LastOf(rows: seq<Row>, size: int): Option<Row> {
    if rows == [] then None
    else
      var later := LastOf(rows[1..], size);
      if later.Some? then later else if rows[0].size == size then Some(rows[0]) else None
  }

  lemma {:induction false} InsertKeepsLast(x: Row, rows: seq<Row>, size: int)
    ensures LastOf(InsertRow(x, rows), size) == LastOf([x] + rows, size)
  {
    assert ([x] + rows)[1..] == rows;
    if !(rows == [] || x.size <= rows[0].size) {
      InsertKeepsLast(x, rows[1..], size);
      assert ([x] + rows[1..])[1..] == rows[1..];
    }
  }

  /** The sort is stable: it keeps the last row of each size last. */
  lemma {:induction false} SortKeepsLast(rows: seq<Row>, size: int)
    ensures LastOf(SortRows(rows), size) == LastOf(rows, size)
  {
    if rows != [] {
      SortKeepsLast(rows[1..], size);
      InsertKeepsLast(rows[0], SortRows(rows[1..]), size);
      assert ([rows[0]] + SortRows(rows[1..]))[1..] == SortRows(rows[1..]);
    }
  }

  lemma {:induction false} LastAt(rows: seq<Row>, k: nat)
    requires k < |rows| && forall j | k < j < |rows| :: rows[j].size != rows[k].size
    ensures LastOf(rows, rows[k].size) == Some(rows[k])
    decreases |rows|
  {
    if k > 0 {
      LastAt(rows[1..], k - 1);
    } else {
      NoneLast(rows[1..], rows[0].size);
    }
  }

  lemma {:induction false} NoneLast(rows: seq<Row>, size: int)
    requires forall j | 0 <= j < |rows| :: rows[j].size != size
    ensures LastOf(rows, size).None?
  {
    if rows != [] {
      NoneLast(rows[1..], size);
    }
  }

  /** Some record proves a time for a presented checkpoint that has a size. */
  ghost predicate HasProof(records: seq<TimeRecord>, cp: Presented) {
    cp.bodyHash.Some? && cp.size.Some? && exists r, t | r in records :: Proves(r, cp.bodyHash.value, t)
  }

  ghost predicate Below(records: seq<TimeRecord>, cp: Presented, leaf: int) {
    HasProof(records, cp) && cp.size.value <= leaf
  }

  /** The last presented of the greatest checkpoints with a proven time that the leaf lies beyond. */
  ghost predicate LastBelow(records: seq<TimeRecord>, chain: seq<Presented>, leaf: int, i: nat) {
    && i < |chain| && Below(records, chain[i], leaf)
    && forall j | 0 <= j < |chain| && Below(records, chain[j], leaf) ::
         chain[j].size.value < chain[i].size.value || (chain[j].size.value == chain[i].size.value && j <= i)
  }

  lemma {:induction false} LastBelowExists(records: seq<TimeRecord>, chain: seq<Presented>, leaf: int, k: nat) returns (i: nat)
    requires k < |chain| && Below(records, chain[k], leaf)
    ensures LastBelow(records, chain, leaf, i)
  {
    hide Proves;
    i := k;
    for n := 0 to |chain|
      invariant i < |chain| && Below(records, chain[i], leaf)
      invariant forall j | 0 <= j < n && Below(records, chain[j], leaf) ::
                  chain[j].size.value < chain[i].size.value || (chain[j].size.value == chain[i].size.value && j <= i)
    {
      if Below(records, chain[n], leaf) && (chain[n].size.value > chain[i].size.value || (chain[n].size.value == chain[i].size.value && n > i)) {
        i := n;
      }
    }
  }

  lemma {:induction false} HasProofIff(records: seq<TimeRecord>, times: map<Bytes, Time>, cp: Presented)
    requires Earliest(records, times)
    ensures HasProof(records, cp) <==> cp.bodyHash.Some? && cp.bodyHash.value in times && cp.size.Some?
  {
    hide Nts, Less;
  }

  lemma {:induction false} LastTimed(times: map<Bytes, Time>, chain: seq<Presented>, i: nat, row: Row)
    requires i < |chain| && IsTimed(times, chain[i], row)
    requires forall j, other | i < j < |chain| && IsTimed(times, chain[j], other) :: other.size != row.size
    ensures LastOf(TimedRows(times, chain), row.size) == Some(row)
    decreases |chain|
  {
    var rest := TimedRows(times, chain[1..]);
    assert ([row] + rest)[1..] == rest;
    if i > 0 {
      LastTimed(times, chain[1..], i - 1, row);
      forall first: Row ensures LastOf([first] + rest, row.size) == Some(row) {
        assert ([first] + rest)[1..] == rest;
      }
    } else {
      forall k | 0 <= k < |rest| ensures rest[k].size != row.size {
        TimedRowsFrom(times, chain[1..], rest[k]);
        var cp :| cp in chain[1..] && IsTimed(times, cp, rest[k]);
        var j :| 0 <= j < |chain| - 1 && chain[1..][j] == cp;
        assert IsTimed(times, chain[j + 1], rest[k]);
      }
      NoneLast(rest, row.size);
    }
  }

  lemma {:induction false} TimedIsBelow(records: seq<TimeRecord>, times: map<Bytes, Time>, cp: Presented, row: Row, leaf: int)
    requires Earliest(records, times) && IsTimed(times, cp, row)
    ensures HasProof(records, cp) && row.size == cp.size.value && (row.size <= leaf <==> Below(records, cp, leaf))
  {
    hide HasProof, Earliest;
    HasProofIff(records, times, cp);
  }

  /** The last row up to the leaf is of the size of the last such checkpoint, and later rows are larger. */
  lemma {:induction false} LowerSize(records: seq<TimeRecord>, times: map<Bytes, Time>, chain: seq<Presented>, rows: seq<Row>, leaf: int, i: nat, row: Row)
    requires Earliest(records, times) && Clamped(times, chain, rows) && LastBelow(records, chain, leaf, i) && IsTimed(times, chain[i], row)
    ensures var n, sorted := CountUpTo(rows, leaf), SortRows(TimedRows(times, chain));
            && 0 < n <= |sorted| && sorted[n - 1].size == row.size && forall j | n - 1 < j < |sorted| :: sorted[j].size != row.size
  {
    hide SortRows, TimedRows, CountUpTo, HasProof, Below, IsTimed, Earliest, Clamped;
    var sorted, n := SortRows(TimedRows(times, chain)), CountUpTo(rows, leaf);
    TimedIsBelow(records, times, chain[i], row, leaf);
    TimedRowsFrom(times, chain, row);
    SameSizes(times, chain, rows);
    CountSplits(rows, leaf);
    var k :| 0 <= k < |sorted| && sorted[k] == row;
    assert k < n && sorted[n - 1] in sorted;
    TimedRowsFrom(times, chain, sorted[n - 1]);
    var cp :| cp in chain && IsTimed(times, cp, sorted[n - 1]);
    TimedIsBelow(records, times, cp, sorted[n - 1], leaf);
    var j :| 0 <= j < |chain| && chain[j] == cp;
    assert rows[k].size <= rows[n - 1].size <= leaf;
  }

  /** The last row up to the leaf is that of the last such checkpoint. */
  lemma {:induction false} LowerRow(records: seq<TimeRecord>, times: map<Bytes, Time>, chain: seq<Presented>, rows: seq<Row>, leaf: int, i: nat)
      returns (row: Row)
    requires Earliest(records, times) && Clamped(times, chain, rows) && LastBelow(records, chain, leaf, i)
    ensures IsTimed(times, chain[i], row)
    ensures var n, sorted := CountUpTo(rows, leaf), SortRows(TimedRows(times, chain)); 0 < n <= |sorted| && sorted[n - 1] == row
  {
    hide SortRows, TimedRows, CountUpTo, LastOf, Below, Clamped, Earliest, HasProof;
    var timed, sorted, n := TimedRows(times, chain), SortRows(TimedRows(times, chain)), CountUpTo(rows, leaf);
    BelowIsTimed(records, times, chain[i], leaf);
    row := Row(chain[i].size.value, times[chain[i].bodyHash.value]);
    LowerSize(records, times, chain, rows, leaf, i, row);
    forall m, other | i < m < |chain| && IsTimed(times, chain[m], other) ensures other.size != row.size {
      TimedIsBelow(records, times, chain[m], other, leaf);
      TimedIsBelow(records, times, chain[i], row, leaf);
    }
    LastTimed(times, chain, i, row);
    SortKeepsLast(timed, row.size);
    LastAt(sorted, n - 1);
  }

  lemma {:induction false} BelowIsTimed(records: seq<TimeRecord>, times: map<Bytes, Time>, cp: Presented, leaf: int)
    requires Earliest(records, times) && Below(records, cp, leaf)
    ensures cp.bodyHash.Some? && cp.size.Some? && cp.bodyHash.value in times
  {
    hide HasProof, Earliest;
    HasProofIff(records, times, cp);
  }

  /** A record proves the time for that checkpoint, or for a presented one that contains the leaf. */
  ghost predicate ProvenFrom(records: seq<TimeRecord>, chain: seq<Presented>, leaf: int, cp: Presented, t: Time) {
    (cp.bodyHash.Some? && exists r | r in records :: Proves(r, cp.bodyHash.value, t)) || ProvenAbove(records, chain, leaf, t)
  }

  lemma {:induction false} RowIsMin(times: map<Bytes, Time>, chain: seq<Presented>, rows: seq<Row>, k: nat)
    requires Clamped(times, chain, rows) && k < |rows|
    ensures |rows| == |SortRows(TimedRows(times, chain))| && SuffixMin(SortRows(TimedRows(times, chain)), k, rows[k])
  {
    hide SortRows, TimedRows;
  }

  lemma {:induction false} TimedIsProven(records: seq<TimeRecord>, times: map<Bytes, Time>, cp: Presented, row: Row)
    requires Earliest(records, times) && IsTimed(times, cp, row)
    ensures exists r | r in records :: Proves(r, cp.bodyHash.value, row.time)
    ensures forall r, t | r in records && Proves(r, cp.bodyHash.value, t) :: AtMost(row.time.norm, t.norm)
  {
    hide Proves, Less;
  }

  lemma {:induction false} LastBelowInChain(records: seq<TimeRecord>, chain: seq<Presented>, leaf: int, i: nat)
    requires LastBelow(records, chain, leaf, i)
    ensures i < |chain|
  {
    hide Below;
  }

  lemma {:induction false} LowerIsProven(records: seq<TimeRecord>, times: map<Bytes, Time>, chain: seq<Presented>, rows: seq<Row>, leaf: int, i: nat)
    requires Earliest(records, times) && Clamped(times, chain, rows) && LastBelow(records, chain, leaf, i)
    ensures 0 < CountUpTo(rows, leaf) <= |rows| && ProvenFrom(records, chain, leaf, chain[i], rows[CountUpTo(rows, leaf) - 1].time)
  {
    hide SortRows, TimedRows, Proves, AtMost, CountUpTo, LastBelow, Earliest, ProvenAbove, Clamped;
    assert i < |chain| by { LastBelowInChain(records, chain, leaf, i); }
    var row := LowerRow(records, times, chain, rows, leaf, i);
    SameSizes(times, chain, rows);
    CountSplits(rows, leaf);
    var sorted, n := SortRows(TimedRows(times, chain)), CountUpTo(rows, leaf);
    RowIsMin(times, chain, rows, n - 1);
    var k :| n - 1 <= k < |sorted| && rows[n - 1].time == sorted[k].time;
    if k == n - 1 {
      TimedIsProven(records, times, chain[i], row);
    } else {
      assert sorted[k] in sorted;
      RowAboveIsProven(records, times, chain, sorted[k], leaf);
    }
  }

  lemma {:induction false} RowAboveIsProven(records: seq<TimeRecord>, times: map<Bytes, Time>, chain: seq<Presented>, row: Row, leaf: int)
    requires Earliest(records, times) && row in TimedRows(times, chain) && row.size > leaf
    ensures ProvenAbove(records, chain, leaf, row.time)
  {
    hide TimedRows, Earliest, Proves, AtMost;
    TimedRowsFrom(times, chain, row);
    var cp :| cp in chain && IsTimed(times, cp, row);
    TimedIsProven(records, times, cp, row);
  }

  lemma {:induction false} LowerIsLeast(records: seq<TimeRecord>, times: map<Bytes, Time>, chain: seq<Presented>, rows: seq<Row>, leaf: int, i: nat, t: Time)
    requires Earliest(records, times) && Clamped(times, chain, rows) && LastBelow(records, chain, leaf, i) && ProvenFrom(records, chain, leaf, chain[i], t)
    ensures 0 < CountUpTo(rows, leaf) <= |rows| && AtMost(rows[CountUpTo(rows, leaf) - 1].time.norm, t.norm)
  {
    hide SortRows, TimedRows, Less, Proves, AtMost, CountUpTo, LastBelow, Earliest, ProvenAbove, Clamped;
    assert i < |chain| by { LastBelowInChain(records, chain, leaf, i); }
    var row := LowerRow(records, times, chain, rows, leaf, i);
    var sorted, n := SortRows(TimedRows(times, chain)), CountUpTo(rows, leaf);
    SameSizes(times, chain, rows);
    RowIsMin(times, chain, rows, n - 1);
    if ProvenAbove(records, chain, leaf, t) {
      UpperIsLeast(records, times, chain, rows, leaf, t);
      EarliestValid(records, times);
      ClampedOrdered(times, chain, rows);
      AtMostTransitive(rows[n - 1].time.norm, rows[n].time.norm, t.norm);
    } else {
      TimedIsProven(records, times, chain[i], row);
      AtMostTransitive(rows[n - 1].time.norm, sorted[n - 1].time.norm, t.norm);
    }
  }

  /** The lower bound of a leaf is the earliest time any record proves for the last of the greatest timed checkpoints
      the leaf lies beyond, or for any checkpoint that contains the leaf; it is absent exactly when there is no
      such checkpoint. */
  lemma {:induction false} LowerIsEarliestProof(records: seq<TimeRecord>, times: map<Bytes, Time>, chain: seq<Presented>, rows: seq<Row>, leaf: int)
    requires Earliest(records, times) && Clamped(times, chain, rows)
    ensures var lower := IntervalAt(rows, leaf).lower;
            && (lower.Some? <==> exists cp | cp in chain :: Below(records, cp, leaf))
            && (lower.Some? <==> exists i: nat :: LastBelow(records, chain, leaf, i))
            && (forall i: nat | LastBelow(records, chain, leaf, i) ::
                  && lower.Some? && Nts(lower.value).Some?
                  && (exists t: Time :: t.raw == lower.value && t.Valid() && ProvenFrom(records, chain, leaf, chain[i], t))
                  && (forall t: Time | ProvenFrom(records, chain, leaf, chain[i], t) :: AtMost(Nts(lower.value).value, t.norm)))
  {
    hide SortRows, TimedRows, Less, Nts, AtMost, CountUpTo, HasProof, Below, ProvenFrom;
    EarliestValid(records, times);
    ClampedOrdered(times, chain, rows);
    forall i: nat | LastBelow(records, chain, leaf, i)
      ensures 0 < CountUpTo(rows, leaf) <= |rows| && ProvenFrom(records, chain, leaf, chain[i], rows[CountUpTo(rows, leaf) - 1].time)
      ensures forall t | ProvenFrom(records, chain, leaf, chain[i], t) :: AtMost(rows[CountUpTo(rows, leaf) - 1].time.norm, t.norm)
    {
      LowerIsProven(records, times, chain, rows, leaf, i);
      forall t | ProvenFrom(records, chain, leaf, chain[i], t) ensures AtMost(rows[CountUpTo(rows, leaf) - 1].time.norm, t.norm) {
        LowerIsLeast(records, times, chain, rows, leaf, i, t);
      }
    }
    if cp :| cp in chain && Below(records, cp, leaf) {
      var k :| 0 <= k < |chain| && chain[k] == cp;
      var i := LastBelowExists(records, chain, leaf, k);
    }
    if IntervalAt(rows, leaf).lower.Some? {
      var cp := LowerHasCheckpoint(records, times, chain, rows, leaf);
    }
  }

  lemma {:induction false} LowerHasCheckpoint(records: seq<TimeRecord>, times: map<Bytes, Time>, chain: seq<Presented>, rows: seq<Row>, leaf: int)
      returns (cp: Presented)
    requires Earliest(records, times) && Clamped(times, chain, rows) && CountUpTo(rows, leaf) > 0
    ensures cp in chain && Below(records, cp, leaf)
  {
    hide SortRows, TimedRows, Less, Nts, AtMost, CountUpTo, HasProof;
    SameSizes(times, chain, rows);
    CountSplits(rows, leaf);
    var sorted := SortRows(TimedRows(times, chain));
    assert sorted[0] in sorted;
    TimedRowsFrom(times, chain, sorted[0]);
    cp :| cp in chain && IsTimed(times, cp, sorted[0]);
    HasProofIff(records, times, cp);
  }
}
