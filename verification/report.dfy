/** The integer parts of `print_statistics`: the choice of the most popular
    browser and the 24-line hourly table. */
module Report {
  import opened Wrappers
  import opened Counters
  import opened Analyzer

  /** "The most popular browser is ... with ... hits": the entry of the
      browser counter that `most_common(1)` returns, or `None` when no
      browser was seen and the line is not printed. */
  method MostPopularBrowser(s: Stats) returns (r: Option<Entry<string>>)
    ensures r.None? <==> |s.browserCounts| == 0
    ensures r.Some? ==> exists i: nat :: IsFirstMaximum(s.browserCounts, i) && r.value == s.browserCounts[i]
    ensures r.Some? ==> forall e :: e in s.browserCounts ==> e.count <= r.value.count
  {
    var best := MostCommon(s.browserCounts);
    match best
    case None =>
      r := None;
    case Some(i) =>
      r := Some(s.browserCounts[i]);
  }

  /** One line "Hour NN has M hits". */
  datatype HourLine = HourLine(hour: nat, hits: nat)

  /** The hits of hours `0 .. n-1`, read from the counter. */
  ghost function HitsBelow(c: Counter<nat>, n: nat): nat {
    if n == 0 then 0 else HitsBelow(c, n - 1) + Get(c, n - 1)
  }

  ghost function SumHits(lines: seq<HourLine>): nat {
    if |lines| == 0 then 0 else SumHits(lines[..|lines| - 1]) + lines[|lines| - 1].hits
  }

  /** The hourly table: one line per hour of the day, in ascending order,
      with 0 for an hour that never occurred. When every hour in the counter
      is a valid hour, the table accounts for every hourly hit. */
  method HourlyReport(hourly: Counter<nat>) returns (lines: seq<HourLine>)
    ensures |lines| == 24
    ensures forall h :: 0 <= h < 24 ==> lines[h].hour == h && lines[h].hits == Get(hourly, h)
    ensures Valid(hourly) ==> forall h :: 0 <= h < 24 ==> (lines[h].hits == 0 <==> h !in Keys(hourly))
    ensures Valid(hourly) && (forall h :: h in Keys(hourly) ==> h < 24) ==> SumHits(lines) == Total(hourly)
  {
    lines := [];
    for hour := 0 to 24
      invariant |lines| == hour
      invariant forall h :: 0 <= h < hour ==> lines[h].hour == h && lines[h].hits == Get(hourly, h)
      invariant SumHits(lines) == HitsBelow(hourly, hour)
    {
      assert (lines + [HourLine(hour, Get(hourly, hour))])[..hour] == lines;
      lines := lines + [HourLine(hour, Get(hourly, hour))];
    }
    if Valid(hourly) {
      forall h | 0 <= h < 24
        ensures lines[h].hits == 0 <==> h !in Keys(hourly)
      {
        GetPositiveIffKey(hourly, h);
      }
      if forall h :: h in Keys(hourly) ==> h < 24 {
        HitsBelowTotal(hourly, 24);
      }
    }
  }

  /** Appending a new key adds its count to the hours it falls below. */
  lemma {:induction false} HitsBelowAppend(c: Counter<nat>, e: Entry<nat>, n: nat)
    requires IndexOf(c, e.key).None?
    ensures HitsBelow(c + [e], n) == HitsBelow(c, n) + (if e.key < n then e.count else 0)
  {
    AppendIndex(c, e);
    if n > 0 {
      HitsBelowAppend(c, e, n - 1);
    }
  }

  /** Reading hours `0 .. n-1` of a valid counter whose keys are all below
      `n` recovers its total. */
  lemma {:induction false} HitsBelowTotal(c: Counter<nat>, n: nat)
    requires Valid(c) && forall h :: h in Keys(c) ==> h < n
    ensures HitsBelow(c, n) == Total(c)
    decreases |c|
  {
    if |c| == 0 {
      HitsBelowEmpty(c, n);
    } else {
      var p, e := c[..|c| - 1], c[|c| - 1];
      assert c == p + [e];
      assert Keys(p) <= Keys(c) by {
        forall h | h in Keys(p) ensures h in Keys(c) {
          var i :| 0 <= i < |p| && p[i].key == h;
          assert c[i].key == h;
        }
      }
      assert e.key in Keys(c) by {
        assert c[|c| - 1].key == e.key;
      }
      HitsBelowTotal(p, n);
      IndexOfIs(p, e.key, None);
      HitsBelowAppend(p, e, n);
    }
  }

  lemma {:induction false} HitsBelowEmpty(c: Counter<nat>, n: nat)
    requires |c| == 0
    ensures HitsBelow(c, n) == 0
  {
    if n > 0 {
      HitsBelowEmpty(c, n - 1);
    }
  }
}
