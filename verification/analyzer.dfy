/** The single-pass log analyzer (`process_file`): every record of the log is
    read once, in order, and folded into four accumulators. A record with fewer
    than five fields is skipped; one with more than five makes the tuple
    unpacking raise, which nothing catches, so the whole analysis fails. */
module Analyzer {
  import opened Wrappers
  import opened Text
  import opened Counters
  import opened Classify
  import opened Timestamp

  /** One CSV record, already split into fields. */
  type Row = seq<string>

  /** The fields unpacked from a record: path, timestamp, user agent, status
      and size. Only the first three are used. */
  const FieldCount := 5

  /** The four accumulators, in the order `process_file` returns them. */
  datatype Stats = Stats(
    imageHits: nat,
    totalHits: nat,
    browserCounts: Counter<string>,
    hourlyHits: Counter<nat>)

  /** The `ValueError` of unpacking a record with too many fields: which
      record (counting from 0) and how many fields it had. */
  datatype AnalysisError = TooManyFields(row: nat, fields: nat)

  const Initial := Stats(0, 0, [], [])

  /** The accumulators are consistent with each other: no sub-tally exceeds
      the number of records counted, every hour is a valid hour of the day,
      and both counters are well formed. */
  ghost predicate WellFormed(s: Stats) {
    && s.imageHits <= s.totalHits
    && Total(s.browserCounts) <= s.totalHits
    && Total(s.hourlyHits) <= s.totalHits
    && (forall h :: h in Keys(s.hourlyHits) ==> h < 24)
    && Valid(s.browserCounts)
    && Valid(s.hourlyHits)
  }

  /** What one accepted record adds: one hit, one image hit if the path is an
      image, one hit for the browser name matched in the user agent, and one
      hit for the hour if the timestamp parses. */
  function Tally(s: Stats, path: string, timestamp: string, userAgent: string): (r: Stats)
    ensures r.totalHits == s.totalHits + 1
    ensures IsImagePath(path) ==> r.imageHits == s.imageHits + 1
    ensures !IsImagePath(path) ==> r.imageHits == s.imageHits
    ensures forall b :: Get(r.browserCounts, b) == Get(s.browserCounts, b) + (if BrowserKey(userAgent) == Some(b) then 1 else 0)
    ensures BrowserKey(userAgent).None? ==> r.browserCounts == s.browserCounts
    ensures forall h: nat :: Get(r.hourlyHits, h) == Get(s.hourlyHits, h) + (if ParseHour(timestamp) == Some(h) then 1 else 0)
    ensures ParseHour(timestamp).None? ==> r.hourlyHits == s.hourlyHits
  {
    var browsers := match BrowserKey(userAgent)
      case Some(b) => Add(s.browserCounts, b)
      case None => s.browserCounts;
    var hours := match ParseHour(timestamp)
      case Some(h) => Add(s.hourlyHits, h)
      case None => s.hourlyHits;
    Stats(if IsImagePath(path) then s.imageHits + 1 else s.imageHits, s.totalHits + 1, browsers, hours)
  }

  /** Tallying a record keeps the accumulators consistent. */
  lemma TallyWellFormed(s: Stats, path: string, timestamp: string, userAgent: string)
    requires WellFormed(s)
    ensures WellFormed(Tally(s, path, timestamp, userAgent))
  {
    var r := Tally(s, path, timestamp, userAgent);
    match ParseHour(timestamp)
    case Some(h) =>
      assert r.hourlyHits == Add(s.hourlyHits, h);
    case None =>
  }

  /** One iteration of the loop over the records; `index` is the record's
      position, reported if it has too many fields. */
  function Step(s: Stats, row: Row, index: nat): Result<Stats, AnalysisError> {
    if |row| < FieldCount then Success(s)
    else if |row| > FieldCount then Failure(TooManyFields(index, |row|))
    else Success(Tally(s, row[0], row[1], row[2]))
  }

  /** `process_file` over a sequence of records. */
  function Analyze(rows: seq<Row>): Result<Stats, AnalysisError>
    decreases |rows|
  {
    if |rows| == 0 then Success(Initial)
    else
      var s :- Analyze(rows[..|rows| - 1]);
      Step(s, rows[|rows| - 1], |rows| - 1)
  }

  // ---------------------------------------------------------------------------
  // Reference counts, defined record by record
  // ---------------------------------------------------------------------------

  /** The record passes the field-count gate and is unpacked. */
  predicate Accepted(row: Row) {
    |row| == FieldCount
  }

  ghost function CountAccepted(rows: seq<Row>): nat {
    if |rows| == 0 then 0
    else CountAccepted(rows[..|rows| - 1]) + (if Accepted(rows[|rows| - 1]) then 1 else 0)
  }

  ghost function CountImages(rows: seq<Row>): nat {
    if |rows| == 0 then 0
    else
      var row := rows[|rows| - 1];
      CountImages(rows[..|rows| - 1]) + (if Accepted(row) && IsImagePath(row[0]) then 1 else 0)
  }

  ghost function CountBrowser(rows: seq<Row>, b: string): nat {
    if |rows| == 0 then 0
    else
      var row := rows[|rows| - 1];
      CountBrowser(rows[..|rows| - 1], b) + (if Accepted(row) && BrowserKey(row[2]) == Some(b) then 1 else 0)
  }

  ghost function CountHour(rows: seq<Row>, h: nat): nat {
    if |rows| == 0 then 0
    else
      var row := rows[|rows| - 1];
      CountHour(rows[..|rows| - 1], h) + (if Accepted(row) && ParseHour(row[1]) == Some(h) then 1 else 0)
  }

  /** Record `i` is the first with more than five fields. */
  ghost predicate IsFirstOverlong(rows: seq<Row>, i: nat) {
    && i < |rows|
    && |rows[i]| > FieldCount
    && forall j :: 0 <= j < i ==> |rows[j]| <= FieldCount
  }

  // ---------------------------------------------------------------------------
  // The fold
  // ---------------------------------------------------------------------------

  /** The analysis is a left fold: the result on `rows + [row]` is the result
      on `rows` followed by `row`'s step alone, and an earlier failure is
      final. */
  lemma AnalyzeSnoc(rows: seq<Row>, row: Row)
    ensures Analyze(rows + [row]) == match Analyze(rows)
      case Failure(e) => Failure(e)
      case Success(s) => Step(s, row, |rows|)
  {
    assert (rows + [row])[..|rows|] == rows;
  }

  /** The loop resumed from state `s` over further records, the first of
      which sits at position `offset`: records are taken front to back, as
      the `for` loop reads them. */
  function Resume(s: Stats, rows: seq<Row>, offset: nat): Result<Stats, AnalysisError>
    decreases |rows|
  {
    if |rows| == 0 then Success(s)
    else
      var next :- Step(s, rows[0], offset);
      Resume(next, rows[1..], offset + 1)
  }

  /** Splitting the log anywhere: analyzing `a + b` is analyzing `a` and then
      resuming the loop over `b`, whose records keep their positions in the
      whole log; a failure within `a` is the result. */
  lemma {:induction false} AnalyzeAppend(a: seq<Row>, b: seq<Row>)
    ensures Analyze(a + b) == match Analyze(a)
      case Failure(e) => Failure(e)
      case Success(s) => Resume(s, b, |a|)
    decreases |b|
  {
    if |b| == 0 {
      assert a + b == a;
    } else {
      var a' := a + [b[0]];
      assert a + b == a' + b[1..];
      AnalyzeAppend(a', b[1..]);
      AnalyzeSnoc(a, b[0]);
    }
  }

  /** The backward definition of `Analyze` is the forward loop from the
      empty state. */
  lemma AnalyzeIsLoop(rows: seq<Row>)
    ensures Analyze(rows) == Resume(Initial, rows, 0)
  {
    AnalyzeAppend([], rows);
    assert [] + rows == rows;
  }

  /** A record with fewer than five fields leaves all four accumulators as
      they were. */
  lemma ShortRowIgnored(rows: seq<Row>, row: Row)
    requires |row| < FieldCount
    ensures Analyze(rows + [row]) == Analyze(rows)
  {
    AnalyzeSnoc(rows, row);
  }

  /** A record with more than five fields ends the analysis with an error and
      no partial result, whatever follows it. */
  lemma {:induction false} OverlongRowAborts(rows: seq<Row>, row: Row, rest: seq<Row>)
    requires |row| > FieldCount && Analyze(rows).Success?
    ensures Analyze(rows + [row] + rest) == Failure(TooManyFields(|rows|, |row|))
  {
    AnalyzeSnoc(rows, row);
    FailureIsFinal(rows + [row], rest);
  }

  /** Once the analysis has failed, later records do not matter. */
  lemma {:induction false} FailureIsFinal(rows: seq<Row>, rest: seq<Row>)
    requires Analyze(rows).Failure?
    ensures Analyze(rows + rest) == Analyze(rows)
    decreases |rest|
  {
    if |rest| > 0 {
      var init := rest[..|rest| - 1];
      FailureIsFinal(rows, init);
      assert rows + rest == (rows + init) + [rest[|rest| - 1]];
      AnalyzeSnoc(rows + init, rest[|rest| - 1]);
    } else {
      assert rows + rest == rows;
    }
  }

  /** An accepted record whose timestamp does not parse still counts as a
      hit, and as an image or browser hit when its path or user agent
      qualifies; only the hourly tally is left as it was. */
  lemma UnparseableTimestamp(rows: seq<Row>, row: Row, s: Stats)
    requires Analyze(rows) == Success(s)
    requires Accepted(row) && ParseHour(row[1]).None?
    ensures Analyze(rows + [row]).Success?
    ensures Analyze(rows + [row]).value.hourlyHits == s.hourlyHits
    ensures Analyze(rows + [row]).value.totalHits == s.totalHits + 1
    ensures Analyze(rows + [row]).value.imageHits == s.imageHits + (if IsImagePath(row[0]) then 1 else 0)
    ensures forall b ::
      Get(Analyze(rows + [row]).value.browserCounts, b) == Get(s.browserCounts, b) + (if BrowserKey(row[2]) == Some(b) then 1 else 0)
  {
    AnalyzeSnoc(rows, row);
  }

  // ---------------------------------------------------------------------------
  // Properties of the whole analysis
  // ---------------------------------------------------------------------------

  /** The analysis succeeds exactly when no record has more than five
      fields. */
  lemma {:induction false} AnalyzeSucceedsIff(rows: seq<Row>)
    ensures Analyze(rows).Success? <==> forall i :: 0 <= i < |rows| ==> |rows[i]| <= FieldCount
    decreases |rows|
  {
    if |rows| > 0 {
      var init := rows[..|rows| - 1];
      AnalyzeSucceedsIff(init);
      assert forall i :: 0 <= i < |init| ==> init[i] == rows[i];
    }
  }

  /** When it fails, it names the first record with more than five fields and
      that record's field count, and only then. */
  lemma {:induction false} AnalyzeFailsAt(rows: seq<Row>, i: nat, n: nat)
    ensures Analyze(rows) == Failure(TooManyFields(i, n)) <==> IsFirstOverlong(rows, i) && n == |rows[i]|
    decreases |rows|
  {
    if |rows| > 0 {
      var init := rows[..|rows| - 1];
      AnalyzeFailsAt(init, i, n);
      AnalyzeSucceedsIff(init);
      assert forall j :: 0 <= j < |init| ==> init[j] == rows[j];
      if IsFirstOverlong(rows, i) && i < |init| {
        assert IsFirstOverlong(init, i);
      }
    }
  }

  /** A successful analysis agrees with the record-by-record reference
      counts: `totalHits` counts the records with exactly five fields, and
      each sub-tally counts the accepted records of its kind. */
  lemma {:induction false} AnalyzeCounts(rows: seq<Row>, s: Stats)
    requires Analyze(rows) == Success(s)
    ensures s.totalHits == CountAccepted(rows)
    ensures s.imageHits == CountImages(rows)
    ensures forall b :: Get(s.browserCounts, b) == CountBrowser(rows, b)
    ensures forall h :: Get(s.hourlyHits, h) == CountHour(rows, h)
    decreases |rows|
  {
    if |rows| > 0 {
      var init := rows[..|rows| - 1];
      var prev :| Analyze(init) == Success(prev);
      AnalyzeCounts(init, prev);
    }
  }

  /** A successful analysis produces consistent accumulators. */
  lemma {:induction false} AnalyzeWellFormed(rows: seq<Row>, s: Stats)
    requires Analyze(rows) == Success(s)
    ensures WellFormed(s)
    decreases |rows|
  {
    if |rows| > 0 {
      var init := rows[..|rows| - 1];
      var prev :| Analyze(init) == Success(prev);
      AnalyzeWellFormed(init, prev);
      var row := rows[|rows| - 1];
      if Accepted(row) {
        TallyWellFormed(prev, row[0], row[1], row[2]);
      }
    }
  }

  /** When every record has exactly five fields, the analysis succeeds and
      counts every record. */
  lemma {:induction false} AllRecordsCounted(rows: seq<Row>)
    requires forall i :: 0 <= i < |rows| ==> |rows[i]| == FieldCount
    ensures Analyze(rows).Success? && Analyze(rows).value.totalHits == |rows|
    decreases |rows|
  {
    if |rows| > 0 {
      var init := rows[..|rows| - 1];
      assert forall i :: 0 <= i < |init| ==> init[i] == rows[i];
      AllRecordsCounted(init);
    }
  }

  // ---------------------------------------------------------------------------
  // The loop
  // ---------------------------------------------------------------------------

  /** `process_file`: the loop over the records, with the four accumulators
      held in one `Stats` value and each accepted record folded in by
      `Tally`. */
  method Process(rows: seq<Row>) returns (r: Result<Stats, AnalysisError>)
    ensures r == Analyze(rows)
    ensures r.Success? <==> forall i :: 0 <= i < |rows| ==> |rows[i]| <= FieldCount
    ensures r.Success? ==> WellFormed(r.value) && r.value.totalHits == CountAccepted(rows)
  {
    var stats := Initial;
    for i := 0 to |rows|
      invariant Analyze(rows[..i]) == Success(stats)
    {
      var row := rows[i];
      assert rows[..i + 1] == rows[..i] + [row];
      AnalyzeSnoc(rows[..i], row);
      if |row| < FieldCount {
        continue;
      }
      if |row| > FieldCount {
        assert rows == rows[..i + 1] + rows[i + 1..];
        FailureIsFinal(rows[..i + 1], rows[i + 1..]);
        AnalyzeSucceedsIff(rows);
        return Failure(TooManyFields(i, |row|));
      }
      var path, timestamp, userAgent := row[0], row[1], row[2];
      stats := Tally(stats, path, timestamp, userAgent);
    }
    assert rows[..|rows|] == rows;
    r := Success(stats);
    AnalyzeSucceedsIff(rows);
    AnalyzeWellFormed(rows, stats);
    AnalyzeCounts(rows, stats);
  }
}
