/** Concrete records and what the model gives for them: a
    typical record, a short one, an unparseable timestamp, an unknown browser
    and two spellings of the same browser. */
module Scenarios {
  import opened Wrappers
  import opened Text
  import opened Counters
  import opened Classify
  import opened Timestamp
  import opened Analyzer

  // ---------------------------------------------------------------------------
  // The classifiers on single values
  // ---------------------------------------------------------------------------

  /** The image test ignores case but insists the extension ends the path. */
  lemma ImageExamples(a: string, b: string, c: string, d: string)
    requires a == "a.jpg" && b == "x.png" && c == "a.JPG" && d == "a.jpgx"
    ensures IsImagePath(a) && IsImagePath(b) && IsImagePath(c) && !IsImagePath(d)
  {
    ImageIffFoldedSuffix(a);
    assert FoldAll(a[1..]) == ".jpg";
    ImageIffFoldedSuffix(b);
    assert FoldAll(b[1..]) == ".png";
    ImageIffFoldedSuffix(c);
    assert FoldAll(c[1..]) == ".jpg";
    ImageIffFoldedSuffix(d);
    assert FoldAll(d[2..])[0] == 'j';
  }

  /** The browser name is found inside a longer user agent and keeps the
      spelling it has there. */
  lemma FirefoxInMozilla(ua: string)
    requires ua == "Mozilla Firefox 1.0"
    ensures BrowserKey(ua) == Some("Firefox")
  {
    forall j: nat, k | j < 8 && 0 <= k < |Browsers|
      ensures !MatchesAt(ua, j, Browsers[k])
    {
      if j == 3 && k == 2 {
        assert Fold(ua[4]) != Browsers[2][1];
      } else if j + |Browsers[k]| <= |ua| {
        assert Fold(ua[j]) != Browsers[k][0];
      }
    }
    assert MatchesAt(ua, 8, Browsers[0]);
    assert ua[8..15] == "Firefox" by {
      forall k | 0 <= k < 7
        ensures ua[8..15][k] == "Firefox"[k]
      {
        assert ua[8..15][k] == ua[8 + k];
      }
    }
    KeyOfLeftmostMatch(ua, BrowserMatch(8, 0));
  }

  /** "firefox" and "Firefox" both match, each under its own spelling. */
  lemma FirefoxSpellings(ua: string)
    requires ua == "firefox" || ua == "Firefox"
    ensures BrowserKey(ua) == Some(ua)
  {
    assert MatchesAt(ua, 0, Browsers[0]);
    assert ua[0..7] == ua;
    KeyOfLeftmostMatch(ua, BrowserMatch(0, 0));
  }

  /** Opera is not among the recognised browsers. */
  lemma OperaIsNoBrowser(ua: string)
    requires ua == "Opera/9.0"
    ensures NoBrowserIn(ua)
  {
    forall j: nat, k | 0 <= k < |Browsers|
      ensures !MatchesAt(ua, j, Browsers[k])
    {
      if j + |Browsers[k]| <= |ua| {
        OperaNotAt(ua, j, Browsers[k]);
      }
    }
  }

  /** No name of six or more letters starting with f, c, i or s fits in
      "Opera/9.0" at any position. */
  lemma OperaNotAt(ua: string, j: nat, pat: string)
    requires ua == "Opera/9.0" && |pat| >= 6 && pat[0] in "fcis" && j + |pat| <= |ua|
    ensures !MatchesAt(ua, j, pat)
  {
    assert j <= 3;
    if j == 0 {
      assert Fold(ua[0]) == 'o';
    } else if j == 1 {
      assert Fold(ua[1]) == 'p';
    } else if j == 2 {
      assert Fold(ua[2]) == 'e';
    } else {
      assert Fold(ua[3]) == 'r';
    }
  }

  /** A timestamp in the expected format yields its hour. */
  lemma HourOfTimestamp(ts: string)
    requires ts == "01/01/2024 10:00:00"
    ensures ParseHour(ts) == Some(10)
  {
    var dt := DateTime(2024, 1, 1, 10, 0, 0);
    assert Pad2(1) == "01" && Pad2(10) == "10" && Pad2(0) == "00" && Pad4(2024) == "2024";
    assert Format(dt) == ts;
    FormatThenParseHour(dt);
  }

  /** Text that is not a date has no hour. */
  lemma NoHourInText(ts: string)
    requires ts == "not-a-date"
    ensures ParseHour(ts) == None
  {
    assert MatchField(ts, 0, MonthAlts, Some('/')) == None;
  }

  /** A well-shaped timestamp for a day the calendar lacks has no hour
      either: `strptime` rejects 30 February. */
  lemma NoHourOnMissingDay(ts: string)
    requires ts == "02/30/2024 10:00:00"
    ensures ParseHour(ts) == None
  {
    var dt := DateTime(2024, 2, 30, 10, 0, 0);
    assert Pad2(2) == "02" && Pad2(30) == "30" && Pad2(10) == "10" && Pad2(0) == "00" && Pad4(2024) == "2024";
    assert Format(dt) == ts;
    assert !IsValid(dt);
    FormatThenParseHour(dt);
  }

  /** `%S` reads a second of 60, but the calendar rejects it, so a
      timestamp with a leap second has no hour. */
  lemma NoHourOnLeapSecond(ts: string)
    requires ts == "01/01/2024 10:00:60"
    ensures ParseHour(ts) == None
  {
    var dt := DateTime(2024, 1, 1, 10, 0, 60);
    assert Pad2(1) == "01" && Pad2(10) == "10" && Pad2(0) == "00" && Pad2(60) == "60" && Pad4(2024) == "2024";
    assert Format(dt) == ts;
    assert !IsValid(dt);
    FormatThenParseHour(dt);
  }

  // ---------------------------------------------------------------------------
  // Whole analyses
  // ---------------------------------------------------------------------------

  /** A single record for an image, viewed in Firefox at 10 o'clock. */
  lemma OneImageRecord(rows: seq<Row>, path: string, ts: string, ua: string)
    requires path == "a.jpg" && ts == "01/01/2024 10:00:00" && ua == "Mozilla Firefox 1.0"
    requires rows == [[path, ts, ua, "200", "512"]]
    ensures Analyze(rows) == Success(Stats(1, 1, [Entry("Firefox", 1)], [Entry(10, 1)]))
  {
    ImageExamples(path, "x.png", "a.JPG", "a.jpgx");
    FirefoxInMozilla(ua);
    HourOfTimestamp(ts);
    SingleRecord(rows, Initial, path, ts, ua);
    FirstTally(path, ts, ua);
  }

  /** Analyzing one accepted record is tallying it into the empty state. */
  lemma SingleRecord(rows: seq<Row>, s: Stats, path: string, ts: string, ua: string)
    requires s == Initial && |rows| == 1 && |rows[0]| == FieldCount
    requires rows[0][0] == path && rows[0][1] == ts && rows[0][2] == ua
    ensures Analyze(rows) == Success(Tally(s, path, ts, ua))
  {
    assert rows[..0] == [];
  }

  /** The first record tallied into the empty state: each counter holds at
      most the one key the record produced. */
  lemma FirstTally(path: string, ts: string, ua: string)
    ensures Tally(Initial, path, ts, ua).imageHits == if IsImagePath(path) then 1 else 0
    ensures Tally(Initial, path, ts, ua).totalHits == 1
    ensures Tally(Initial, path, ts, ua).browserCounts ==
      if BrowserKey(ua).Some? then [Entry(BrowserKey(ua).value, 1)] else []
    ensures Tally(Initial, path, ts, ua).hourlyHits ==
      if ParseHour(ts).Some? then [Entry(ParseHour(ts).value, 1)] else []
  {
    if b :| BrowserKey(ua) == Some(b) {
      AddToEmpty(b);
    }
    if h :| ParseHour(ts) == Some(h) {
      AddToEmpty(h);
    }
  }

  lemma AddToEmpty<K(!new)>(k: K)
    ensures Add([], k) == [Entry(k, 1)]
  {
    assert IndexOf([], k) == None;
  }

  /** A record of three fields is skipped: nothing is counted. */
  lemma ShortRecordSkipped(rows: seq<Row>)
    requires rows == [["a.jpg", "01/01/2024 10:00:00", "Mozilla Firefox 1.0"]]
    ensures Analyze(rows) == Success(Initial)
  {
    assert rows[..0] == [];
  }

  /** A record of six fields stops the analysis, even after good records. */
  lemma LongRecordFails(rows: seq<Row>, good: Row)
    requires |good| == FieldCount
    requires rows == [good, ["a.jpg", "01/01/2024 10:00:00", "Mozilla Firefox 1.0", "200", "512", "extra"]]
    ensures Analyze(rows) == Failure(TooManyFields(1, 6))
  {
    AnalyzeFailsAt(rows, 1, 6);
  }

  /** An image record with an unparseable timestamp counts as a hit and an
      image hit, but for no hour. */
  lemma UnparseableTimestampRecord(rows: seq<Row>, path: string, ts: string, ua: string)
    requires path == "x.png" && ts == "not-a-date"
    requires rows == [[path, ts, ua, "200", "512"]]
    ensures Analyze(rows).Success?
    ensures Analyze(rows).value.imageHits == 1 && Analyze(rows).value.totalHits == 1
    ensures Analyze(rows).value.hourlyHits == []
  {
    ImageExamples("a.jpg", path, "a.JPG", "a.jpgx");
    NoHourInText(ts);
    assert rows[..0] == [];
    assert Analyze(rows) == Success(Tally(Initial, path, ts, ua));
  }

  /** A record from an unrecognised browser counts as a hit but for no
      browser. */
  lemma UnknownBrowserRecord(rows: seq<Row>, path: string, ts: string, ua: string)
    requires ua == "Opera/9.0"
    requires rows == [[path, ts, ua, "200", "512"]]
    ensures Analyze(rows).Success?
    ensures Analyze(rows).value.totalHits == 1 && Analyze(rows).value.browserCounts == []
  {
    OperaIsNoBrowser(ua);
    assert rows[..0] == [];
    assert Analyze(rows) == Success(Tally(Initial, path, ts, ua));
  }

  /** "firefox" and "Firefox" in two records are counted as two browsers,
      one hit each, in the order they were first seen. */
  lemma TwoSpellingsTwoKeys(rows: seq<Row>, path: string, ts: string, lower: string, upper: string)
    requires lower == "firefox" && upper == "Firefox"
    requires rows == [[path, ts, lower, "200", "512"], [path, ts, upper, "200", "512"]]
    ensures Analyze(rows).Success?
    ensures Analyze(rows).value.browserCounts == [Entry(lower, 1), Entry(upper, 1)]
  {
    FirefoxSpellings(lower);
    FirefoxSpellings(upper);
    TwoRecords(rows, path, ts, lower, upper);
    var first := Tally(Initial, path, ts, lower);
    assert first.browserCounts == Add([], lower);
    TwoNewKeys(lower, upper);
  }

  /** Analyzing two accepted records is tallying one after the other. */
  lemma TwoRecords(rows: seq<Row>, path: string, ts: string, ua1: string, ua2: string)
    requires |rows| == 2 && |rows[0]| == FieldCount && |rows[1]| == FieldCount
    requires rows[0][0] == path && rows[0][1] == ts && rows[0][2] == ua1
    requires rows[1][0] == path && rows[1][1] == ts && rows[1][2] == ua2
    ensures Analyze(rows) == Success(Tally(Tally(Initial, path, ts, ua1), path, ts, ua2))
  {
    assert rows[..1][..0] == [];
    assert Analyze(rows[..1]) == Success(Tally(Initial, path, ts, ua1));
  }

  /** Two different keys added to an empty counter sit in the order added. */
  lemma TwoNewKeys(k1: string, k2: string)
    requires k1 != k2
    ensures Add(Add([], k1), k2) == [Entry(k1, 1), Entry(k2, 1)]
  {
    assert Add([], k1) == [Entry(k1, 1)];
    assert IndexOf([Entry(k1, 1)], k2) == None;
  }
}
