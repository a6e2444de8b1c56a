/** `Merger`: replays the contributions of several timelines into one
    accumulated state, adding each contribution's count to its day and to
    its year, and derives the merged timeline from that state. Only the
    date and the count of a contribution are read. */
module Merge {
  import opened Results
  import opened Text
  import opened Calendar
  import opened Types
  import opened Quartiles
  import opened Accumulate
  import opened Pipeline
  import opened Parsing
  import opened Sorting

  /** What `merge_timeline` reads of each contribution: its date text and
      its count. */
  function ContributionItems(cs: seq<Contribution>): (r: seq<Item>)
    ensures |r| == |cs| && forall i :: 0 <= i < |r| ==> r[i] == Item(cs[i].date, cs[i].count)
  {
    if cs == [] then [] else ContributionItems(cs[..|cs| - 1]) + [Item(cs[|cs| - 1].date, cs[|cs| - 1].count)]
  }

  /** The items of several timelines, one timeline after another. */
  function TimelinesItems(ts: seq<Timeline>): seq<Item>
    decreases |ts|
  {
    if ts == [] then [] else TimelinesItems(ts[..|ts| - 1]) + ContributionItems(ts[|ts| - 1].contributions)
  }

  lemma {:induction false} TimelinesItemsAppend(a: seq<Timeline>, b: seq<Timeline>)
    ensures TimelinesItems(a + b) == TimelinesItems(a) + TimelinesItems(b)
    decreases |b|
  {
    if b == [] {
      assert a + b == a;
    } else {
      var init, last := b[..|b| - 1], b[|b| - 1];
      assert (a + b)[..|a + b| - 1] == a + init;
      assert (a + b)[|a + b| - 1] == last;
      TimelinesItemsAppend(a, init);
      var x, y, z := TimelinesItems(a), TimelinesItems(init), ContributionItems(last.contributions);
      assert TimelinesItems(a + b) == x + y + z;
      assert TimelinesItems(b) == y + z;
      assert x + y + z == x + (y + z);
    }
  }

  /** The reading of timelines `ts`, one after another, stopping at the
      first date that does not parse. */
  function MergedScan(ts: seq<Timeline>): Scan {
    ScanItems(TimelinesItems(ts), ParseLine)
  }

  class Merger {
    const state: ParseState

    ghost predicate Valid()
      reads this, state
    {
      state.Valid()
    }

    /** `Merger::new`: nothing merged yet. */
    constructor ()
      ensures fresh(state) && state.yearsMap == map[] && state.days == map[]
      ensures Valid()
    {
      state := new ParseState();
    }

    /** `merge_timeline`: for each contribution in order, parses its date
        (stopping with the error at the first that does not parse, after
        the earlier ones have been added) and, unless the date text is
        blank, adds the count to the year and then to the day. */
    method MergeTimeline(timeline: Timeline) returns (r: Result<()>)
      requires Valid()
      modifies state
      ensures Valid()
      ensures var scan := ScanItems(ContributionItems(timeline.contributions), ParseLine);
        && state.yearsMap == ReplayYears(old(state.yearsMap), scan.entries)
        && state.days == ReplayDays(old(state.days), scan.entries)
        && (r.Success? <==> scan.error.None?)
        && (r.Failure? ==> r.error == scan.error.value)
    {
      var cs := timeline.contributions;
      ghost var items := ContributionItems(cs);
      for k := 0 to |cs|
        invariant Valid()
        invariant ScanItems(items[..k], ParseLine).error.None?
        invariant state.yearsMap == ReplayYears(old(state.yearsMap), ScanItems(items[..k], ParseLine).entries)
        invariant state.days == ReplayDays(old(state.days), ScanItems(items[..k], ParseLine).entries)
      {
        ScanStep(items, k, ParseLine);
        var date := ParseLine(cs[k].date);
        if date.Failure? {
          ScanStops(items, k + 1, ParseLine);
          return Failure(date.error);
        }
        if date.value.Some? {
          var d := date.value.value;
          ReplaySnoc(old(state.yearsMap), old(state.days), ScanItems(items[..k], ParseLine).entries, Entry(d, cs[k].count));
          state.UpdateYears(d, cs[k].count);
          state.UpdateDays(d, cs[k].count);
        }
      }
      assert items[..|cs|] == items;
      return Success(());
    }

    /** `merge`: merges the timelines in order, stopping at the first that
        fails (later ones are not read), then derives the timeline of
        everything merged so far. */
    method Merge(timelines: seq<Timeline>, query: Query) returns (r: Result<Timeline>, ghost table: map<nat, seq<nat>>)
      requires Valid()
      modifies state
      ensures Valid()
      ensures var scan := MergedScan(timelines);
        && state.yearsMap == ReplayYears(old(state.yearsMap), scan.entries)
        && state.days == ReplayDays(old(state.days), scan.entries)
        && (scan.error.Some? ==> r == Failure(scan.error.value))
        && (scan.error.None? ==> (r.Success? <==> HasCuts(state.yearsMap, state.days, query)))
        && (scan.error.None? && r.Failure? ==> r.error == NoQuartile)
      ensures r.Success? ==>
        TableOf(state.yearsMap, state.days, query, table) && IsTimelineOf(state.yearsMap, state.days, table, r.value)
    {
      for k := 0 to |timelines|
        invariant Valid()
        invariant MergedScan(timelines[..k]).error.None?
        invariant state.yearsMap == ReplayYears(old(state.yearsMap), MergedScan(timelines[..k]).entries)
        invariant state.days == ReplayDays(old(state.days), MergedScan(timelines[..k]).entries)
      {
        ghost var before := MergedScan(timelines[..k]).entries;
        var res := MergeTimeline(timelines[k]);
        MergeStep(timelines, k);
        ReplayAppend(old(state.yearsMap), old(state.days), before,
                     ScanItems(ContributionItems(timelines[k].contributions), ParseLine).entries);
        if res.Failure? {
          MergeStops(timelines, k + 1);
          return Failure(res.error), map[];
        }
      }
      assert timelines[..|timelines|] == timelines;
      r, table := state.ToTimeline(query);
    }

    /** `timeline`: the timeline of everything merged so far; the state is
        left as it is, so asking again gives the same answer. */
    method Current(query: Query) returns (r: Result<Timeline>, ghost table: map<nat, seq<nat>>)
      requires Valid()
      ensures r.Success? <==> HasCuts(state.yearsMap, state.days, query)
      ensures r.Failure? ==> r.error == NoQuartile
      ensures r.Success? ==>
        TableOf(state.yearsMap, state.days, query, table) && IsTimelineOf(state.yearsMap, state.days, table, r.value)
    {
      r, table := state.ToTimeline(query);
    }
  }

  /** Reading one more timeline: its items are read only if the earlier
      ones had no failure. */
  lemma MergeStep(ts: seq<Timeline>, k: nat)
    requires k < |ts| && MergedScan(ts[..k]).error.None?
    ensures var one := ScanItems(ContributionItems(ts[k].contributions), ParseLine);
      MergedScan(ts[..k + 1]) == Scan(MergedScan(ts[..k]).entries + one.entries, one.error)
  {
    assert ts[..k + 1] == ts[..k] + [ts[k]];
    TimelinesItemsAppend(ts[..k], [ts[k]]);
    assert TimelinesItems([ts[k]]) == [] + ContributionItems(ts[k].contributions);
    ScanAppend(TimelinesItems(ts[..k]), ContributionItems(ts[k].contributions), ParseLine);
  }

  /** Once a timeline fails, the timelines after it are not read. */
  lemma MergeStops(ts: seq<Timeline>, k: nat)
    requires k <= |ts| && MergedScan(ts[..k]).error.Some?
    ensures MergedScan(ts) == MergedScan(ts[..k])
  {
    TimelinesItemsSplit(ts, k);
    ScanFailed(TimelinesItems(ts[..k]), TimelinesItems(ts[k..]), ParseLine);
  }

  /** The items of the timelines are those before a cut followed by those
      after it. */
  lemma TimelinesItemsSplit(ts: seq<Timeline>, k: nat)
    requires k <= |ts|
    ensures TimelinesItems(ts) == TimelinesItems(ts[..k]) + TimelinesItems(ts[k..])
  {
    assert ts == ts[..k] + ts[k..];
    TimelinesItemsAppend(ts[..k], ts[k..]);
  }

  // ---- properties of merging ----

  /** Merging no timeline gives the default, empty timeline. */
  lemma MergeNothing(query: Query, table: map<nat, seq<nat>>, t: Timeline)
    requires TableOf(map[], map[], query, table) && IsTimelineOf(map[], map[], table, t)
    ensures MergedScan([]) == Scan([], None)
    ensures t == DefaultTimeline
  {
    assert table == map[];
    EmptyTimeline(table, t);
  }

  /** Timelines whose contributions agree in date and count, in order. */
  predicate SameDatesAndCounts(a: seq<Timeline>, b: seq<Timeline>) {
    && |a| == |b|
    && forall i :: 0 <= i < |a| ==>
         && |a[i].contributions| == |b[i].contributions|
         && forall j :: 0 <= j < |a[i].contributions| ==>
              a[i].contributions[j].date == b[i].contributions[j].date
              && a[i].contributions[j].count == b[i].contributions[j].count
  }

  /** The colour and intensity of the inputs are never read, nor are their
      year summaries: timelines with the same dates and counts merge alike. */
  lemma {:induction false} IgnoresColourAndIntensity(a: seq<Timeline>, b: seq<Timeline>)
    requires SameDatesAndCounts(a, b)
    ensures TimelinesItems(a) == TimelinesItems(b)
    ensures MergedScan(a) == MergedScan(b)
    decreases |a|
  {
    if a != [] {
      var n := |a| - 1;
      assert SameDatesAndCounts(a[..n], b[..n]);
      IgnoresColourAndIntensity(a[..n], b[..n]);
      assert ContributionItems(a[n].contributions) == ContributionItems(b[n].contributions);
    }
  }

  /** The total recorded for year `y`, 0 if there is none. */
  function TotalIn(years: map<nat, Year>, y: nat): nat {
    if y in years then years[y].total else 0
  }

  /** Merging is additive: after timelines `a` have merged without failure,
      merging `b` adds its counts to every year total and every day. */
  lemma MergeAdds(a: seq<Timeline>, b: seq<Timeline>, y: nat, d: Date)
    requires MergedScan(a).error.None?
    ensures MergedScan(a + b).error == MergedScan(b).error
    ensures var ea, eb, both := MergedScan(a).entries, MergedScan(b).entries, MergedScan(a + b).entries;
      && TotalIn(ReplayYears(map[], both), y) == TotalIn(ReplayYears(map[], ea), y) + TotalIn(ReplayYears(map[], eb), y)
      && CountOn(ReplayDays(map[], both), d) == CountOn(ReplayDays(map[], ea), d) + CountOn(ReplayDays(map[], eb), d)
  {
    TimelinesItemsAppend(a, b);
    ScanAppend(TimelinesItems(a), TimelinesItems(b), ParseLine);
    var ea, eb := MergedScan(a).entries, MergedScan(b).entries;
    SumsAppend(ea, eb, y, d);
    ReplayYearsTotal(ea, y);
    ReplayYearsTotal(eb, y);
    ReplayYearsTotal(ea + eb, y);
    ReplayDaysCount(map[], ea, d);
    ReplayDaysCount(map[], eb, d);
    ReplayDaysCount(map[], ea + eb, d);
  }

  /** The earliest of a list is its only element that nothing precedes. */
  lemma EarliestUnique(ds: seq<Date>, e: Date)
    requires e in ds && forall x :: x in ds ==> !Before(x, e)
    ensures Earliest(ds) == e
  {
  }

  /** The latest of a list is its only element that nothing follows. */
  lemma LatestUnique(ds: seq<Date>, e: Date)
    requires e in ds && forall x :: x in ds ==> !Before(e, x)
    ensures Latest(ds) == e
  {
  }

  /** After merging, a year's range runs from the earliest to the latest
      date merged into it, zero counts included. */
  lemma MergedRange(ts: seq<Timeline>, y: nat)
    requires DatesIn(MergedScan(ts).entries, y) != []
    ensures var es := MergedScan(ts).entries;
      && y in ReplayYears(map[], es)
      && ReplayYears(map[], es)[y].range == Range(Format(Earliest(DatesIn(es, y))), Format(Latest(DatesIn(es, y))))
  {
    ScanValid(TimelinesItems(ts));
    ReplayYearsRange(MergedScan(ts).entries, y);
  }

  /** The earliest and latest of two lists together are the earlier of
      their earliests and the later of their latests. */
  lemma BoundsAppend(x: seq<Date>, y: seq<Date>)
    requires x != [] && y != []
    ensures Earliest(x + y) == if Before(Earliest(y), Earliest(x)) then Earliest(y) else Earliest(x)
    ensures Latest(x + y) == if Before(Latest(x), Latest(y)) then Latest(y) else Latest(x)
  {
    assert forall d :: d in x + y <==> d in x || d in y;
    EarliestUnique(x + y, if Before(Earliest(y), Earliest(x)) then Earliest(y) else Earliest(x));
    LatestUnique(x + y, if Before(Latest(x), Latest(y)) then Latest(y) else Latest(x));
  }

  /** Replaying two runs of valid entries that both reach year `y` gives
      `y` the wider of their two ranges. */
  lemma RangesJoin(ea: seq<Entry>, eb: seq<Entry>, y: nat)
    requires AllValid(ea) && AllValid(eb) && y in ReplayYears(map[], ea) && y in ReplayYears(map[], eb)
    ensures var ra, rb := ReplayYears(map[], ea)[y].range, ReplayYears(map[], eb)[y].range;
      && y in ReplayYears(map[], ea + eb)
      && ReplayYears(map[], ea + eb)[y].range
         == Range(if StrLt(rb.start, ra.start) then rb.start else ra.start,
                  if StrLt(ra.end, rb.end) then rb.end else ra.end)
  {
    ReplayYearsTotal(ea, y);
    ReplayYearsTotal(eb, y);
    var da, db := DatesIn(ea, y), DatesIn(eb, y);
    SumsAppend(ea, eb, y, Date(0, 0, 0));
    assert AllValid(ea + eb);
    ReplayYearsRange(ea, y);
    ReplayYearsRange(eb, y);
    ReplayYearsRange(ea + eb, y);
    BoundsAppend(da, db);
    DatesValid(ea, y);
    DatesValid(eb, y);
    FormatOrder(Earliest(db), Earliest(da));
    FormatOrder(Latest(da), Latest(db));
  }

  /** Merging `b` after `a` widens each year's range to cover both: the
      start is the smaller of the two starts and the end the larger of the
      two ends, as text. */
  lemma MergeWidens(a: seq<Timeline>, b: seq<Timeline>, y: nat)
    requires MergedScan(a).error.None?
    requires y in ReplayYears(map[], MergedScan(a).entries) && y in ReplayYears(map[], MergedScan(b).entries)
    ensures var ra, rb := ReplayYears(map[], MergedScan(a).entries)[y].range, ReplayYears(map[], MergedScan(b).entries)[y].range;
      && y in ReplayYears(map[], MergedScan(a + b).entries)
      && ReplayYears(map[], MergedScan(a + b).entries)[y].range
         == Range(if StrLt(rb.start, ra.start) then rb.start else ra.start,
                  if StrLt(ra.end, rb.end) then rb.end else ra.end)
  {
    TimelinesItemsAppend(a, b);
    ScanAppend(TimelinesItems(a), TimelinesItems(b), ParseLine);
    var ea, eb := MergedScan(a).entries, MergedScan(b).entries;
    ScanValid(TimelinesItems(a));
    ScanValid(TimelinesItems(b));
    RangesJoin(ea, eb, y);
  }

  /** The dates of a year in valid entries are valid. */
  lemma DatesValid(es: seq<Entry>, y: nat)
    requires AllValid(es)
    ensures forall d :: d in DatesIn(es, y) ==> IsValid(d)
  {
    forall d | d in DatesIn(es, y)
      ensures IsValid(d)
    {
      var e :| e in es && e.date == d && d.year == y;
      var i :| 0 <= i < |es| && es[i] == e;
    }
  }

  // ---- merging a timeline back ----

  /** Items whose texts all read as dates scan as one entry each, in order. */
  lemma {:induction false} ScanAllDated(items: seq<Item>, read: Reader)
    requires forall i :: 0 <= i < |items| ==> read(items[i].text).Success? && read(items[i].text).value.Some?
    ensures ScanItems(items, read).error.None?
    ensures var es := ScanItems(items, read).entries;
      && |es| == |items|
      && forall i :: 0 <= i < |items| ==> es[i] == Entry(read(items[i].text).value.value, items[i].amount)
    decreases |items|
  {
    if items != [] {
      var n := |items| - 1;
      ScanAllDated(items[..n], read);
      var prev := ScanItems(items[..n], read).entries;
      assert ScanItems(items, read).entries == prev + [Entry(read(items[n].text).value.value, items[n].amount)];
    }
  }

  /** Among entries on distinct dates, the amount for `d` is that of its
      entry, or 0 without one. */
  lemma {:induction false} SumOnDistinct(es: seq<Entry>, d: Date)
    requires forall i, j :: 0 <= i < j < |es| ==> es[i].date != es[j].date
    ensures (forall i :: 0 <= i < |es| ==> es[i].date != d) ==> SumOn(es, d) == 0
    ensures forall i :: 0 <= i < |es| && es[i].date == d ==> SumOn(es, d) == es[i].amount
    decreases |es|
  {
    if es != [] {
      var n := |es| - 1;
      SumOnDistinct(es[..n], d);
    }
  }

  /** Merging one timeline reads its contributions. */
  lemma OneTimeline(t: Timeline)
    ensures TimelinesItems([t]) == ContributionItems(t.contributions)
  {
    assert [t][..0] == [];
    assert TimelinesItems([t]) == [] + ContributionItems(t.contributions);
  }

  /** Each contribution of a timeline of a state is shown for a date of a
      recorded year, and its text reads as that date. */
  lemma TimelineDatesRead(years: map<nat, Year>, days: map<Date, nat>, table: map<nat, seq<nat>>, t: Timeline, i: nat)
    requires GoodCuts(table) && table.Keys == years.Keys && IsTimelineOf(years, days, table, t)
    requires i < |t.contributions|
    ensures var r := ParseLine(t.contributions[i].date);
      && r.Success? && r.value.Some? && IsValid(r.value.value) && r.value.value.year in years
      && t.contributions[i] == Shown(days, table, r.value.value)
  {
    Member(t.contributions, i);
    var d :| IsValid(d) && d.year in years && t.contributions[i] == Shown(days, table, d);
    IndentedDate([], d, Format(d));
    assert [] + Format(d) == Format(d);
  }

  /** The contributions of a timeline of a state read back without
      failure as one entry each, on the date each is shown for and with its
      count. */
  lemma ReadBack(years: map<nat, Year>, days: map<Date, nat>, table: map<nat, seq<nat>>, t: Timeline)
    requires GoodCuts(table) && table.Keys == years.Keys && IsTimelineOf(years, days, table, t)
    ensures MergedScan([t]).error.None?
    ensures var es := MergedScan([t]).entries;
      && |es| == |t.contributions|
      && forall i :: 0 <= i < |es| ==>
           && IsValid(es[i].date) && es[i].date.year in years
           && t.contributions[i] == Shown(days, table, es[i].date)
           && es[i].amount == t.contributions[i].count
  {
    var cs := t.contributions;
    var items := ContributionItems(cs);
    OneTimeline(t);
    forall i | 0 <= i < |items|
      ensures var r := ParseLine(items[i].text);
        && r.Success? && r.value.Some? && IsValid(r.value.value) && r.value.value.year in years
        && cs[i] == Shown(days, table, r.value.value)
    {
      TimelineDatesRead(years, days, table, t, i);
    }
    ScanAllDated(items, ParseLine);
    assert MergedScan([t]) == ScanItems(items, ParseLine);
    var es := ScanItems(items, ParseLine).entries;
    forall i | 0 <= i < |es|
      ensures IsValid(es[i].date) && es[i].date.year in years && cs[i] == Shown(days, table, es[i].date)
      ensures es[i].amount == cs[i].count
    {
      var r := ParseLine(items[i].text);
      assert es[i] == Entry(r.value.value, items[i].amount);
    }
  }

  /** The contributions of a timeline of a state read back, in order, as
      one entry per contribution, on distinct dates of the recorded years,
      each carrying the count the state holds for its date. */
  lemma RoundTripEntries(years: map<nat, Year>, days: map<Date, nat>, table: map<nat, seq<nat>>, t: Timeline)
    requires GoodCuts(table) && table.Keys == years.Keys && IsTimelineOf(years, days, table, t)
    ensures MergedScan([t]).error.None?
    ensures var es := MergedScan([t]).entries;
      && |es| == |t.contributions|
      && (forall i :: 0 <= i < |es| ==>
            && IsValid(es[i].date) && es[i].date.year in years
            && t.contributions[i] == Shown(days, table, es[i].date)
            && es[i].amount == CountOn(days, es[i].date))
      && (forall i, j :: 0 <= i < j < |es| ==> es[i].date != es[j].date)
  {
    ReadBack(years, days, table, t);
    var es, cs := MergedScan([t]).entries, t.contributions;
    ContributionOrder();
    forall i, j | 0 <= i < j < |es|
      ensures es[i].date != es[j].date
    {
      assert ContributionLt(cs[i], cs[j]);
    }
  }

  /** Read back from a timeline of a state, a date of a recorded year
      carries the count the state holds for it, and any other date none. */
  lemma RoundTripSum(years: map<nat, Year>, days: map<Date, nat>, table: map<nat, seq<nat>>, t: Timeline, d: Date)
    requires GoodCuts(table) && table.Keys == years.Keys && IsTimelineOf(years, days, table, t)
    ensures SumOn(MergedScan([t]).entries, d) == if IsValid(d) && d.year in years then CountOn(days, d) else 0
  {
    RoundTripEntries(years, days, table, t);
    var es := MergedScan([t]).entries;
    SumOnDistinct(es, d);
    if IsValid(d) && d.year in years {
      RoundTripDay(years, days, table, t, d);
    }
  }

  /** Merging a timeline of a consistent state gives every date the count
      the state holds for it. */
  lemma RoundTripCount(years: map<nat, Year>, days: map<Date, nat>, table: map<nat, seq<nat>>, t: Timeline, d: Date)
    requires WellFormed(years, days) && Consistent(years, days)
    requires GoodCuts(table) && table.Keys == years.Keys && IsTimelineOf(years, days, table, t)
    ensures CountOn(ReplayDays(map[], MergedScan([t]).entries), d) == CountOn(days, d)
  {
    ReplayDaysCount(map[], MergedScan([t]).entries, d);
    RoundTripSum(years, days, table, t, d);
    if d in days && !(IsValid(d) && d.year in years) {
      assert days[d] == 0;
    }
  }

  /** A year with dates among entries whose years are all in `years` is
      in `years`. */
  lemma EntryYear(es: seq<Entry>, years: map<nat, Year>, y: nat)
    requires forall i :: 0 <= i < |es| ==> es[i].date.year in years
    requires DatesIn(es, y) != []
    ensures y in years
  {
    var d := DatesIn(es, y)[0];
    assert d in DatesIn(es, y);
    var e :| e in es && e.date == d && d.year == y;
    var i :| 0 <= i < |es| && es[i] == e;
  }

  /** Every day of a recorded year is read back from a timeline of the
      state. */
  lemma RoundTripDay(years: map<nat, Year>, days: map<Date, nat>, table: map<nat, seq<nat>>, t: Timeline, d: Date)
    requires GoodCuts(table) && table.Keys == years.Keys && IsTimelineOf(years, days, table, t)
    requires IsValid(d) && d.year in years
    ensures exists i :: 0 <= i < |MergedScan([t]).entries| && MergedScan([t]).entries[i].date == d
  {
    RoundTripEntries(years, days, table, t);
    var es := MergedScan([t]).entries;
    var c := Shown(days, table, d);
    assert c in t.contributions;
    var i :| 0 <= i < |t.contributions| && t.contributions[i] == c;
    var e := es[i].date;
    assert Format(e) == Shown(days, table, e).date == c.date == Format(d);
    FormatInjective(d, e);
  }

  /** A year is recorded after merging a timeline of a state exactly when
      the state records it: each recorded year has all its days in the
      timeline. */
  lemma RoundTripKey(years: map<nat, Year>, days: map<Date, nat>, table: map<nat, seq<nat>>, t: Timeline, y: nat)
    requires WellFormed(years, days)
    requires GoodCuts(table) && table.Keys == years.Keys && IsTimelineOf(years, days, table, t)
    ensures y in ReplayYears(map[], MergedScan([t]).entries) <==> y in years
  {
    var es := MergedScan([t]).entries;
    ReplayYearsTotal(es, y);
    if y in years {
      var d := FirstDay(y);
      assert y <= LastYear && IsValid(d);
      RoundTripDay(years, days, table, t, d);
      var i :| 0 <= i < |es| && es[i].date == d;
      assert es[i] in es;
      assert d in DatesIn(es, y);
    }
    if DatesIn(es, y) != [] {
      RoundTripEntries(years, days, table, t);
      EntryYear(es, years, y);
    }
  }

  /** After merging a timeline of a consistent state, a recorded year has
      the state's total. */
  lemma RoundTripTotal(years: map<nat, Year>, days: map<Date, nat>, table: map<nat, seq<nat>>, t: Timeline, y: nat)
    requires WellFormed(years, days) && Consistent(years, days)
    requires GoodCuts(table) && table.Keys == years.Keys && IsTimelineOf(years, days, table, t)
    requires y in years
    ensures var m := ReplayYears(map[], MergedScan([t]).entries);
      y in m && m[y].year == years[y].year && m[y].total == years[y].total
  {
    RoundTripKey(years, days, table, t, y);
    var es := MergedScan([t]).entries;
    var md := ReplayDays(map[], es);
    ScanValid(TimelinesItems([t]));
    ReplayConsistent(map[], map[], es);
    forall d | d in YearDates(y)
      ensures CountOn(md, d) == CountOn(days, d)
    {
      RoundTripCount(years, days, table, t, d);
    }
    SumCountsSame(md, days, YearDates(y));
    ReplayYearsTotal(es, y);
  }

  /** Merging a timeline of a consistent state records the same years with
      the same totals (the ranges become whole years, as every day of a
      recorded year is in the timeline). */
  lemma RoundTripYears(years: map<nat, Year>, days: map<Date, nat>, table: map<nat, seq<nat>>, t: Timeline)
    requires WellFormed(years, days) && Consistent(years, days)
    requires GoodCuts(table) && table.Keys == years.Keys && IsTimelineOf(years, days, table, t)
    ensures var m := ReplayYears(map[], MergedScan([t]).entries);
      && m.Keys == years.Keys
      && forall y :: y in m ==> m[y].year == years[y].year && m[y].total == years[y].total
  {
    var m := ReplayYears(map[], MergedScan([t]).entries);
    RoundTripKeys(years, days, table, t);
    forall y | y in m
      ensures m[y].year == years[y].year && m[y].total == years[y].total
    {
      RoundTripTotal(years, days, table, t, y);
    }
  }

  /** Merging a timeline of a consistent state records the same years. */
  lemma RoundTripKeys(years: map<nat, Year>, days: map<Date, nat>, table: map<nat, seq<nat>>, t: Timeline)
    requires WellFormed(years, days) && Consistent(years, days)
    requires GoodCuts(table) && table.Keys == years.Keys && IsTimelineOf(years, days, table, t)
    ensures ReplayYears(map[], MergedScan([t]).entries).Keys == years.Keys
  {
    var m := ReplayYears(map[], MergedScan([t]).entries);
    forall y
      ensures y in m <==> y in years
    {
      RoundTripKey(years, days, table, t, y);
    }
  }

  /** Merging a timeline of a consistent state gives every date the same
      count, so every recorded year the same cut points. */
  lemma RoundTripTable(years: map<nat, Year>, days: map<Date, nat>, query: Query, table: map<nat, seq<nat>>, t: Timeline)
    requires WellFormed(years, days) && Consistent(years, days)
    requires TableOf(years, days, query, table) && IsTimelineOf(years, days, table, t)
    ensures var es := MergedScan([t]).entries;
      && (forall d :: CountOn(ReplayDays(map[], es), d) == CountOn(days, d))
      && TableOf(ReplayYears(map[], es), ReplayDays(map[], es), query, table)
  {
    RoundTripCounts(years, days, table, t);
    RoundTripYears(years, days, table, t);
    var es := MergedScan([t]).entries;
    SameCountsTable(years, days, ReplayYears(map[], es), ReplayDays(map[], es), query, table);
  }

  /** States with the same years whose counts agree have the same cut
      points. */
  lemma SameCountsTable(years: map<nat, Year>, days: map<Date, nat>, m: map<nat, Year>, md: map<Date, nat>,
                        query: Query, table: map<nat, seq<nat>>)
    requires TableOf(years, days, query, table) && m.Keys == years.Keys
    requires forall d :: CountOn(md, d) == CountOn(days, d)
    ensures TableOf(m, md, query, table)
  {
    SameAllCuts(md, days, query);
  }

  /** Maps that agree on every count have the same cut points for every
      year. */
  lemma SameAllCuts(a: map<Date, nat>, b: map<Date, nat>, query: Query)
    requires forall d :: CountOn(a, d) == CountOn(b, d)
    ensures forall y :: YearCuts(a, y, query) == YearCuts(b, y, query)
  {
    forall y
      ensures YearCuts(a, y, query) == YearCuts(b, y, query)
    {
      SameYearCuts(a, b, y, query);
    }
  }

  /** Merging a timeline of a consistent state gives every date the count
      the state holds for it. */
  lemma RoundTripCounts(years: map<nat, Year>, days: map<Date, nat>, table: map<nat, seq<nat>>, t: Timeline)
    requires WellFormed(years, days) && Consistent(years, days)
    requires GoodCuts(table) && table.Keys == years.Keys && IsTimelineOf(years, days, table, t)
    ensures forall d :: CountOn(ReplayDays(map[], MergedScan([t]).entries), d) == CountOn(days, d)
  {
    forall d
      ensures CountOn(ReplayDays(map[], MergedScan([t]).entries), d) == CountOn(days, d)
    {
      RoundTripCount(years, days, table, t, d);
    }
  }

  /** Maps that agree on every count agree on every year's counts, so on
      its cut points. */
  lemma SameYearCuts(a: map<Date, nat>, b: map<Date, nat>, y: nat, query: Query)
    requires forall d :: CountOn(a, d) == CountOn(b, d)
    ensures YearCuts(a, y, query) == YearCuts(b, y, query)
  {
    assert YearCounts(a, y) == YearCounts(b, y);
  }

  /** A timeline of a consistent state, merged into a fresh merger, gives
      back the same contributions: date, count, colour and intensity. */
  lemma MergeRoundTrip(years: map<nat, Year>, days: map<Date, nat>, query: Query, table: map<nat, seq<nat>>, t: Timeline,
                       table2: map<nat, seq<nat>>, t2: Timeline)
    requires WellFormed(years, days) && Consistent(years, days)
    requires TableOf(years, days, query, table) && IsTimelineOf(years, days, table, t)
    requires var es := MergedScan([t]).entries;
      && TableOf(ReplayYears(map[], es), ReplayDays(map[], es), query, table2)
      && IsTimelineOf(ReplayYears(map[], es), ReplayDays(map[], es), table2, t2)
    ensures MergedScan([t]).error.None?
    ensures t2.contributions == t.contributions
  {
    var es := MergedScan([t]).entries;
    var m, md := ReplayYears(map[], es), ReplayDays(map[], es);
    RoundTripEntries(years, days, table, t);
    RoundTripTable(years, days, query, table, t);
    TableOfUnique(m, md, query, table, table2);
    SameShown(years, days, m, md, table, t, t2);
  }

  /** Two timelines over the same years and cut points whose counts agree
      have the same contributions. */
  lemma SameShown(years: map<nat, Year>, days: map<Date, nat>, m: map<nat, Year>, md: map<Date, nat>,
                  table: map<nat, seq<nat>>, t: Timeline, t2: Timeline)
    requires GoodCuts(table) && table.Keys == years.Keys && table.Keys == m.Keys
    requires forall d :: CountOn(md, d) == CountOn(days, d)
    requires IsTimelineOf(years, days, table, t) && IsTimelineOf(m, md, table, t2)
    ensures t2.contributions == t.contributions
  {
    forall d | IsValid(d) && d.year in years
      ensures Shown(md, table, d) == Shown(days, table, d)
    {
    }
    ContributionOrder();
    AscendingUnique(t2.contributions, t.contributions, ContributionLt);
  }

  /** After the round trip every year has the text and the total of a year
      of the original timeline. */
  lemma MergeRoundTripYears(years: map<nat, Year>, days: map<Date, nat>, table: map<nat, seq<nat>>, t: Timeline,
                            table2: map<nat, seq<nat>>, t2: Timeline)
    requires WellFormed(years, days) && Consistent(years, days)
    requires GoodCuts(table) && table.Keys == years.Keys && IsTimelineOf(years, days, table, t)
    requires var es := MergedScan([t]).entries;
      && GoodCuts(table2) && table2.Keys == ReplayYears(map[], es).Keys
      && IsTimelineOf(ReplayYears(map[], es), ReplayDays(map[], es), table2, t2)
    ensures forall x :: x in t2.years ==> exists o :: o in t.years && o.year == x.year && o.total == x.total
  {
    var m := ReplayYears(map[], MergedScan([t]).entries);
    RoundTripYears(years, days, table, t);
    YearsMatch(years, m, t.years, t2.years);
  }

  /** Year lists listing maps whose years agree in text and total agree
      too. */
  lemma YearsMatch(years: map<nat, Year>, m: map<nat, Year>, ys: seq<Year>, ys2: seq<Year>)
    requires forall y :: y in m ==> y in years && m[y].year == years[y].year && m[y].total == years[y].total
    requires forall x :: x in ys <==> x in years.Values
    requires forall x :: x in ys2 <==> x in m.Values
    ensures forall x :: x in ys2 ==> exists o :: o in ys && o.year == x.year && o.total == x.total
  {
    forall x | x in ys2
      ensures exists o :: o in ys && o.year == x.year && o.total == x.total
    {
      var y :| y in m && m[y] == x;
      assert years[y] in years.Values;
    }
  }

  /** Lists of dates whose counts agree sum alike. */
  lemma {:induction false} SumCountsSame(a: map<Date, nat>, b: map<Date, nat>, ds: seq<Date>)
    requires forall d :: d in ds ==> CountOn(a, d) == CountOn(b, d)
    ensures SumCounts(a, ds) == SumCounts(b, ds)
  {
    if ds != [] {
      assert ds[0] in ds;
      SumCountsSame(a, b, ds[1..]);
    }
  }

  // ---- the merger's examples ----

  lemma Text0101() ensures Format(Date(2020, 1, 1)) == "2020-01-01" { }
  lemma Text0102() ensures Format(Date(2020, 1, 2)) == "2020-01-02" { }
  lemma Text0103() ensures Format(Date(2020, 1, 3)) == "2020-01-03" { }

  /** The date texts of the merger's tests read as their dates. */
  lemma ExampleDates()
    ensures ParseLine("2020-01-01") == Success(Some(Date(2020, 1, 1)))
    ensures ParseLine("2020-01-02") == Success(Some(Date(2020, 1, 2)))
    ensures ParseLine("2020-01-03") == Success(Some(Date(2020, 1, 3)))
  {
    Text0101();
    Text0102();
    Text0103();
    IndentedDate([], Date(2020, 1, 1), "2020-01-01");
    IndentedDate([], Date(2020, 1, 2), "2020-01-02");
    IndentedDate([], Date(2020, 1, 3), "2020-01-03");
    assert [] + "2020-01-01" == "2020-01-01";
    assert [] + "2020-01-02" == "2020-01-02";
    assert [] + "2020-01-03" == "2020-01-03";
  }

  /** `test_merge_one`: a timeline with 1000 commits on 2020-01-01 and 234
      on 2020-01-02 merges, alone, into year 2020 with total 1234 and range
      2020-01-01 to 2020-01-02. */
  lemma MergeOneExample(t: Timeline)
    requires |t.contributions| == 2
    requires t.contributions[0] == Contribution("2020-01-01", 1000, "", 4)
    requires t.contributions[1] == Contribution("2020-01-02", 234, "", 4)
    ensures MergedScan([t]).error.None?
    ensures ReplayYears(map[], MergedScan([t]).entries)
         == map[2020 := Year("2020", 1234, Range("2020-01-01", "2020-01-02"))]
  {
    var a, b := Date(2020, 1, 1), Date(2020, 1, 2);
    ExampleDates();
    OneEntries(t, ParseLine, a, b);
    OneReplay(MergedScan([t]).entries, a, b);
    Text0101();
    Text0102();
    Text2020();
  }

  /** A timeline whose two dates read as `a, b`, with counts 1000 and 234,
      merges without failure into two entries. */
  lemma OneEntries(t: Timeline, read: Reader, a: Date, b: Date)
    requires |t.contributions| == 2
    requires read(t.contributions[0].date) == Success(Some(a)) && t.contributions[0].count == 1000
    requires read(t.contributions[1].date) == Success(Some(b)) && t.contributions[1].count == 234
    ensures ScanItems(TimelinesItems([t]), read) == Scan([Entry(a, 1000), Entry(b, 234)], None)
  {
    OneTimeline(t);
    ScanAllDated(ContributionItems(t.contributions), read);
  }

  /** Two entries on two dates of one year, in order, give that year alone,
      with total 1234 and the two dates as range. */
  lemma OneReplay(es: seq<Entry>, a: Date, b: Date)
    requires IsValid(a) && IsValid(b) && a.year == b.year && Before(a, b)
    requires es == [Entry(a, 1000), Entry(b, 234)]
    ensures ReplayYears(map[], es) == map[a.year := Year(NatToString(a.year), 1234, Range(Format(a), Format(b)))]
  {
    assert forall e :: e in es ==> e.date == a || e.date == b;
    assert es[0].date == a && es[1].date == b;
    TwoSum(es, a, b);
    ReplayInYear(es, a.year, a, b);
  }

  /** Two entries in one year add up to their amounts. */
  lemma TwoSum(es: seq<Entry>, a: Date, b: Date)
    requires a.year == b.year && es == [Entry(a, 1000), Entry(b, 234)]
    ensures SumInYear(es, a.year) == 1234
  {
    SumsAppend([Entry(a, 1000)], [Entry(b, 234)], a.year, a);
    assert [Entry(a, 1000)] + [Entry(b, 234)] == es;
    assert [Entry(a, 1000)][..0] == [] && [Entry(b, 234)][..0] == [];
  }

  /** The two timelines of the merger's test, with any year summaries:
      the first has 1000 commits on 2020-01-01 and 234 on 2020-01-02, the
      second 0, 5 and 1 on 2020-01-01, -02 and -03; colours and
      intensities as the test gives them. */
  predicate IsMergeExample(t1: Timeline, t2: Timeline) {
    && |t1.contributions| == 2 && |t2.contributions| == 3
    && t1.contributions[0] == Contribution("2020-01-01", 1000, "", 4)
    && t1.contributions[1] == Contribution("2020-01-02", 234, "", 4)
    && t2.contributions[0] == Contribution("2020-01-01", 0, "", 0)
    && t2.contributions[1] == Contribution("2020-01-02", 5, "", 4)
    && t2.contributions[2] == Contribution("2020-01-03", 1, "", 1)
  }

  /** Two timelines whose dates read as `a, b` and `a, b, c`, with counts
      1000, 234 and 0, 5, 1, merge without failure into five entries. */
  lemma ExampleEntries(t1: Timeline, t2: Timeline, read: Reader, a: Date, b: Date, c: Date)
    requires |t1.contributions| == 2 && |t2.contributions| == 3
    requires read(t1.contributions[0].date) == Success(Some(a)) && t1.contributions[0].count == 1000
    requires read(t1.contributions[1].date) == Success(Some(b)) && t1.contributions[1].count == 234
    requires read(t2.contributions[0].date) == Success(Some(a)) && t2.contributions[0].count == 0
    requires read(t2.contributions[1].date) == Success(Some(b)) && t2.contributions[1].count == 5
    requires read(t2.contributions[2].date) == Success(Some(c)) && t2.contributions[2].count == 1
    ensures ScanItems(TimelinesItems([t1, t2]), read)
         == Scan([Entry(a, 1000), Entry(b, 234), Entry(a, 0), Entry(b, 5), Entry(c, 1)], None)
  {
    var i1, i2 := ContributionItems(t1.contributions), ContributionItems(t2.contributions);
    ScanAllDated(i1, read);
    ScanAllDated(i2, read);
    assert [t1, t2][..1] == [t1];
    assert [t1][..0] == [];
    assert TimelinesItems([t1]) == [] + i1;
    assert TimelinesItems([t1, t2]) == [] + i1 + i2;
    assert [] + i1 + i2 == i1 + i2;
    ScanAppend(i1, i2, read);
  }

  /** Five entries in one year whose amounts add up to 1240. */
  lemma ExampleSum(es: seq<Entry>, a: Date, b: Date, c: Date)
    requires a.year == b.year == c.year
    requires es == [Entry(a, 1000), Entry(b, 234), Entry(a, 0), Entry(b, 5), Entry(c, 1)]
    ensures SumInYear(es, a.year) == 1240
  {
    var p2 := [Entry(a, 1000), Entry(b, 234)];
    var p3 := p2 + [Entry(a, 0)];
    var p4 := p3 + [Entry(b, 5)];
    assert es == p4 + [Entry(c, 1)];
    TwoSum(p2, a, b);
    SumSnoc(p2, Entry(a, 0), a.year);
    SumSnoc(p3, Entry(b, 5), a.year);
    SumSnoc(p4, Entry(c, 1), a.year);
  }

  /** An entry appended in year `y` adds its amount to that year's sum. */
  lemma SumSnoc(es: seq<Entry>, e: Entry, y: nat)
    requires e.date.year == y
    ensures SumInYear(es + [e], y) == SumInYear(es, y) + e.amount
  {
    assert (es + [e])[..|es|] == es;
  }

  /** The five entries of the test, on three dates of one year in order,
      give that year alone, with total 1240 and the first and last of the
      dates as range. */
  lemma ExampleReplay(es: seq<Entry>, a: Date, b: Date, c: Date)
    requires IsValid(a) && IsValid(b) && IsValid(c) && a.year == b.year == c.year
    requires Before(a, b) && Before(b, c)
    requires es == [Entry(a, 1000), Entry(b, 234), Entry(a, 0), Entry(b, 5), Entry(c, 1)]
    ensures ReplayYears(map[], es) == map[a.year := Year(NatToString(a.year), 1240, Range(Format(a), Format(c)))]
  {
    assert forall e :: e in es ==> e.date == a || e.date == b || e.date == c;
    assert es[0].date == a && es[4].date == c;
    ExampleSum(es, a, b, c);
    ReplayInYear(es, a.year, a, c);
  }

  /** `test_merge_multiple`: merging the two test timelines gives year 2020
      alone, with total 1234 + 6 = 1240 and range 2020-01-01 to
      2020-01-03; the input year summaries play no part. */
  lemma MergeExample(t1: Timeline, t2: Timeline)
    requires IsMergeExample(t1, t2)
    ensures MergedScan([t1, t2]).error.None?
    ensures ReplayYears(map[], MergedScan([t1, t2]).entries)
         == map[2020 := Year("2020", 1240, Range("2020-01-01", "2020-01-03"))]
  {
    var a, b, c := Date(2020, 1, 1), Date(2020, 1, 2), Date(2020, 1, 3);
    ExampleDates();
    ExampleEntries(t1, t2, ParseLine, a, b, c);
    ExampleReplay(MergedScan([t1, t2]).entries, a, b, c);
    Text0101();
    Text0103();
    Text2020();
  }

  /** The timeline `merge` returns for the test timelines lists that one
      year. */
  lemma MergeExampleTimeline(t1: Timeline, t2: Timeline, query: Query, table: map<nat, seq<nat>>, t: Timeline)
    requires IsMergeExample(t1, t2)
    requires var es := MergedScan([t1, t2]).entries;
      && TableOf(ReplayYears(map[], es), ReplayDays(map[], es), query, table)
      && IsTimelineOf(ReplayYears(map[], es), ReplayDays(map[], es), table, t)
    ensures t.years == [Year("2020", 1240, Range("2020-01-01", "2020-01-03"))]
  {
    MergeExample(t1, t2);
    var es := MergedScan([t1, t2]).entries;
    SingleYear(ReplayYears(map[], es), 2020, Year("2020", 1240, Range("2020-01-01", "2020-01-03")), ReplayDays(map[], es), table, t);
  }
}

