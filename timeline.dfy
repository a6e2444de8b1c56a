/** The accumulated state of a parse or a merge, and the step that turns it
    into a timeline: for each year, newest first, every calendar day is
    filled in, the year's cut points are computed from the day counts, and
    each day becomes a contribution with its intensity and colour; the
    contributions are then sorted. */
module Pipeline {
  import opened Results
  import opened Text
  import opened Calendar
  import opened Sorting
  import opened Types
  import opened Classify
  import opened Quartiles
  import opened Accumulate

  // ---- what a timeline must contain ----

  /** The count of each of the dates `ds`, in order; a day without a record
      counts 0. */
  function CountsOf(days: map<Date, nat>, ds: seq<Date>): (r: seq<nat>)
    ensures |r| == |ds|
    ensures forall i :: 0 <= i < |r| ==> r[i] == CountOn(days, ds[i])
  {
    if ds == [] then [] else CountsOf(days, ds[..|ds| - 1]) + [CountOn(days, ds[|ds| - 1])]
  }

  /** The count of every day of year `y`, January 1 first. */
  function YearCounts(days: map<Date, nat>, y: nat): (r: seq<nat>)
    ensures |r| == |YearDates(y)|
    ensures forall i :: 0 <= i < |r| ==> r[i] == CountOn(days, YearDates(y)[i])
  {
    CountsOf(days, YearDates(y))
  }

  /** The cut points of year `y`. */
  function YearCuts(days: map<Date, nat>, y: nat, query: Query): (r: Result<seq<nat>>)
    ensures r.Success? ==> |r.value| == 5 && r.value[0] == 0 && r.value[1] == 1
    ensures r.Failure? ==> r.error == NoQuartile
  {
    YearDatesLength(y);
    QuartilesOf(YearCounts(days, y), query)
  }

  /** The contribution shown for date `d` with `count` under `cuts`. */
  function ContributionFor(d: Date, count: nat, cuts: seq<nat>): Contribution
    requires |cuts| > 0 && cuts[0] == 0
  {
    var level := Intensity(cuts, count);
    Contribution(Format(d), count, Color(level), level)
  }

  /** Every recorded year has cut points. */
  ghost predicate HasCuts(years: map<nat, Year>, days: map<Date, nat>, query: Query) {
    forall y :: y in years ==> YearCuts(days, y, query).Success?
  }

  lemma SameMaps<K, V>(a: map<K, V>, b: map<K, V>)
    requires a.Keys == b.Keys && forall k :: k in a ==> a[k] == b[k]
    ensures a == b
  {
  }

  /** `table` holds the cut points of every recorded year and nothing else. */
  ghost predicate TableOf(years: map<nat, Year>, days: map<Date, nat>, query: Query, table: map<nat, seq<nat>>) {
    && table.Keys == years.Keys && GoodCuts(table)
    && forall y :: y in table ==> YearCuts(days, y, query) == Success(table[y])
  }

  /** A state has one table of cut points, and only a state whose every year
      has cut points has one. */
  lemma TableOfUnique(years: map<nat, Year>, days: map<Date, nat>, query: Query, t1: map<nat, seq<nat>>, t2: map<nat, seq<nat>>)
    requires TableOf(years, days, query, t1) && TableOf(years, days, query, t2)
    ensures HasCuts(years, days, query) && t1 == t2
  {
    SameMaps(t1, t2);
  }

  /** Cut points per year, each starting with 0 as `quartiles` makes them. */
  predicate GoodCuts(table: map<nat, seq<nat>>) {
    forall y :: y in table ==> |table[y]| > 0 && table[y][0] == 0
  }

  /** The contribution shown for date `d`: its count, classified under the
      cut points of its year. */
  function Shown(days: map<Date, nat>, table: map<nat, seq<nat>>, d: Date): Contribution
    requires GoodCuts(table) && d.year in table
  {
    ContributionFor(d, CountOn(days, d), table[d.year])
  }

  /** `t` is a timeline of the state: its years are the recorded year
      summaries, newest first; its contributions are one per calendar day
      of every recorded year, classified under that year's cut points in
      `table`, in ascending order. */
  ghost predicate IsTimelineOf(years: map<nat, Year>, days: map<Date, nat>, table: map<nat, seq<nat>>, t: Timeline)
    requires GoodCuts(table) && table.Keys == years.Keys
  {
    && Descending(t.years, YearLt)
    && (forall x :: x in t.years <==> x in years.Values)
    && Ascending(t.contributions, ContributionLt)
    && (forall c :: c in t.contributions <==>
          exists d :: IsValid(d) && d.year in years && c == Shown(days, table, d))
  }

  /** What the state's maps always satisfy: each year is recorded under its
      own number and named by it, and every day is a valid date. */
  ghost predicate WellFormed(years: map<nat, Year>, days: map<Date, nat>) {
    && (forall y :: y in years ==> y <= LastYear && years[y].year == NatToString(y))
    && (forall d :: d in days ==> IsValid(d))
  }

  // ---- the steps of the pipeline ----

  /** `backfill`: walks from January 1 of `year` to December 31 and gives
      every day without a count the count 0. */
  method Backfill(year: nat, days: map<Date, nat>) returns (filled: map<Date, nat>)
    requires year <= LastYear
    ensures forall d :: d in filled <==> d in days || (IsValid(d) && d.year == year)
    ensures forall d :: d in filled ==> filled[d] == CountOn(days, d)
  {
    filled := days;
    var d := FirstDay(year);
    while d != FirstDay(year + 1)
      invariant d == FirstDay(year + 1) || (IsValid(d) && d.year == year)
      invariant forall e :: e in filled <==> e in days || (IsValid(e) && e.year == year && Before(e, d))
      invariant forall e :: e in filled ==> filled[e] == CountOn(days, e)
      decreases year + 1 - d.year, 12 - d.month, 31 - d.day
    {
      if d !in filled {
        filled := filled[d := 0];
      }
      forall e | IsValid(e)
        ensures Before(e, NextDay(d)) <==> Before(e, d) || e == d
      {
        NextDayIsSuccessor(d, e);
      }
      d := NextDay(d);
    }
  }

  /** The contributions made from an enumeration of the days, one per day
      in the enumeration's order. */
  lemma ListedContributions(days: map<Date, nat>, cuts: seq<nat>, dates: seq<Date>, cs: seq<Contribution>)
    requires |cuts| > 0 && cuts[0] == 0
    requires Distinct(dates) && forall d :: d in dates <==> d in days
    requires forall d :: d in days ==> IsValid(d)
    requires |cs| == |dates|
    requires forall k :: 0 <= k < |dates| ==> cs[k] == ContributionFor(dates[k], days[dates[k]], cuts)
    ensures forall c :: c in cs <==> exists d :: d in days && c == ContributionFor(d, days[d], cuts)
    ensures Distinct(cs)
  {
    DistinctDates(dates, cs);
    forall c | c in cs
      ensures exists d :: d in days && c == ContributionFor(d, days[d], cuts)
    {
      var k :| 0 <= k < |cs| && cs[k] == c;
      assert dates[k] in days;
    }
    forall d | d in days
      ensures ContributionFor(d, days[d], cuts) in cs
    {
      assert d in dates;
      var k :| 0 <= k < |dates| && dates[k] == d;
      Member(cs, k);
    }
  }

  /** Contributions made from distinct valid dates are distinct. */
  lemma DistinctDates(dates: seq<Date>, cs: seq<Contribution>)
    requires Distinct(dates) && |cs| == |dates| && forall d :: d in dates ==> IsValid(d)
    requires forall k :: 0 <= k < |dates| ==> cs[k].date == Format(dates[k])
    ensures Distinct(cs)
  {
    forall i, j | 0 <= i < j < |cs|
      ensures cs[i] != cs[j]
    {
      if cs[i].date == cs[j].date {
        FormatInjective(dates[i], dates[j]);
      }
    }
  }

  /** `create_contributions`: one contribution per day of `days`, in the
      map's iteration order. */
  method CreateContributions(days: map<Date, nat>, cuts: seq<nat>) returns (cs: seq<Contribution>)
    requires |cuts| > 0 && cuts[0] == 0
    requires forall d :: d in days ==> IsValid(d)
    ensures forall c :: c in cs <==> exists d :: d in days && c == ContributionFor(d, days[d], cuts)
    ensures Distinct(cs)
  {
    var dates := Enumerate(days);
    cs := [];
    for i := 0 to |dates|
      invariant |cs| == i
      invariant forall k :: 0 <= k < i ==> cs[k] == ContributionFor(dates[k], days[dates[k]], cuts)
    {
      var date := dates[i];
      var count := days[date];
      var level := GetIntensity(cuts, count);
      ghost var prev := cs;
      cs := cs + [Contribution(Format(date), count, Color(level), level)];
      forall k | 0 <= k <= i
        ensures cs[k] == ContributionFor(dates[k], days[dates[k]], cuts)
      {
        if k < i {
          assert cs[k] == prev[k];
        }
      }
    }
    ListedContributions(days, cuts, dates, cs);
  }

  /** The values of a map, in its iteration order. */
  method Values<K(==), V>(m: map<K, V>) returns (vs: seq<V>)
    ensures forall v :: v in vs <==> exists k :: k in m && m[k] == v
  {
    var keys := Enumerate(m);
    vs := seq(|keys|, (i: nat) requires i < |keys| => m[keys[i]]);
    forall v | v in vs
      ensures exists k :: k in m && m[k] == v
    {
      var i :| 0 <= i < |vs| && vs[i] == v;
      assert keys[i] in m;
    }
    forall k | k in m
      ensures m[k] in vs
    {
      var i :| 0 <= i < |keys| && keys[i] == k;
      assert vs[i] == m[k];
    }
  }

  /** The day counts of year `y` once it is backfilled are the counts of
      its calendar days. */
  lemma FilledCounts(filled: map<Date, nat>, days: map<Date, nat>, y: nat, counts: seq<nat>)
    requires y <= LastYear
    requires forall d :: d in filled <==> IsValid(d) && d.year == y
    requires forall d :: d in filled ==> filled[d] == CountOn(days, d)
    requires forall v :: v in counts <==> exists k :: k in filled && filled[k] == v
    ensures forall v :: v in counts <==> v in YearCounts(days, y)
  {
    var all := YearCounts(days, y);
    forall v
      ensures v in counts <==> v in all
    {
      if v in counts {
        var k :| k in filled && filled[k] == v;
        YearDatesExactly(y, k);
        var i :| 0 <= i < |YearDates(y)| && YearDates(y)[i] == k;
        assert all[i] == v;
      }
      if v in all {
        var i :| 0 <= i < |all| && all[i] == v;
        var d := YearDates(y)[i];
        YearDatesExactly(y, d);
        assert filled[d] == v;
      }
    }
  }

  /** Sorting then reversing the recorded year summaries. */
  method SortedYears(years: map<nat, Year>) returns (sorted: seq<Year>)
    requires forall y :: y in years ==> years[y].year == NatToString(y)
    ensures Descending(sorted, YearLt)
    ensures forall x :: x in sorted <==> x in years.Values
  {
    var keys := Enumerate(years);
    var values := seq(|keys|, (i: nat) requires i < |keys| => years[keys[i]]);
    forall i, j | 0 <= i < j < |values|
      ensures values[i] != values[j]
    {
      if values[i] == values[j] {
        NatToStringInjective(keys[i], keys[j]);
      }
    }
    forall x
      ensures x in values <==> x in years.Values
    {
      if x in years.Values {
        var y :| y in years && years[y] == x;
        var i :| 0 <= i < |keys| && keys[i] == y;
        assert values[i] == x;
      }
    }
    YearOrder();
    SortAscending(values, YearLt);
    var ascending := Sort(values, YearLt);
    ReverseAscending(ascending, YearLt);
    sorted := Reverse(ascending);
  }

  /** Contributions of different years are different. */
  lemma DisjointYears(days: map<Date, nat>, table: map<nat, seq<nat>>, done: set<nat>, y: nat,
                      all: seq<Contribution>, cs: seq<Contribution>)
    requires GoodCuts(table) && done <= table.Keys && y in table && y !in done
    requires forall c :: c in all ==> exists d :: IsValid(d) && d.year in done && c == Shown(days, table, d)
    requires forall c :: c in cs ==> exists d :: IsValid(d) && d.year == y && c == Shown(days, table, d)
    ensures forall c :: c in all ==> c !in cs
  {
    forall c | c in all
      ensures c !in cs
    {
      var d :| IsValid(d) && d.year in done && c == Shown(days, table, d);
      if c in cs {
        var e :| IsValid(e) && e.year == y && c == Shown(days, table, e);
        FormatInjective(d, e);
      }
    }
  }

  /** Adding the contributions of year `y` to those of the years `done`. */
  lemma AddYearMembers(days: map<Date, nat>, table: map<nat, seq<nat>>, done: set<nat>, y: nat,
                       all: seq<Contribution>, cs: seq<Contribution>)
    requires GoodCuts(table) && done <= table.Keys && y in table
    requires forall c :: c in all <==> exists d :: IsValid(d) && d.year in done && c == Shown(days, table, d)
    requires forall c :: c in cs <==> exists d :: IsValid(d) && d.year == y && c == Shown(days, table, d)
    ensures forall c :: c in all + cs <==>
      exists d :: IsValid(d) && d.year in done + {y} && c == Shown(days, table, d)
  {
    forall c | c in all + cs
      ensures exists d :: IsValid(d) && d.year in done + {y} && c == Shown(days, table, d)
    {
      if c in all {
        var d :| IsValid(d) && d.year in done && c == Shown(days, table, d);
        assert d.year in done + {y};
      } else {
        assert c in cs;
        var d :| IsValid(d) && d.year == y && c == Shown(days, table, d);
        assert d.year in done + {y};
      }
    }
    forall c | exists d :: IsValid(d) && d.year in done + {y} && c == Shown(days, table, d)
      ensures c in all + cs
    {
      var d :| IsValid(d) && d.year in done + {y} && c == Shown(days, table, d);
      if d.year == y {
        assert c in cs;
      } else {
        assert c in all;
      }
    }
  }

  /** The `k`-th of the sorted years reads back as the number of a
      recorded year not handled yet. */
  lemma NextKey(yearsMap: map<nat, Year>, years: seq<Year>, k: nat, done: set<nat>) returns (y: nat)
    requires forall x :: x in yearsMap ==> yearsMap[x].year == NatToString(x)
    requires Descending(years, YearLt) && forall x :: x in years <==> x in yearsMap.Values
    requires k < |years|
    requires forall x :: x in yearsMap ==> (x in done <==> yearsMap[x] in years[..k])
    ensures y in yearsMap && yearsMap[y] == years[k] && y !in done
    ensures ParseNat(years[k].year) == Some(y)
  {
    assert years[k] in years;
    y :| y in yearsMap && yearsMap[y] == years[k];
    ParseNatToString(y);
    YearOrder();
  }

  /** One more year handled: its cut points join the table and its
      contributions join those of the years before. */
  lemma AddYear(days: map<Date, nat>, table: map<nat, seq<nat>>, done: set<nat>, y: nat, cuts: seq<nat>,
                all: seq<Contribution>, cs: seq<Contribution>)
    requires GoodCuts(table) && table.Keys == done && y !in done && |cuts| > 0 && cuts[0] == 0
    requires Distinct(all) && Distinct(cs)
    requires forall c :: c in all <==> exists d :: IsValid(d) && d.year in done && c == Shown(days, table, d)
    requires forall c :: c in cs <==>
      exists d :: IsValid(d) && d.year == y && c == ContributionFor(d, CountOn(days, d), cuts)
    ensures GoodCuts(table[y := cuts]) && Distinct(all + cs)
    ensures forall c :: c in all + cs <==>
      exists d :: IsValid(d) && d.year in done + {y} && c == Shown(days, table[y := cuts], d)
  {
    var next := table[y := cuts];
    OlderYears(days, table, done, y, cuts, all);
    NewYear(days, table, y, cuts, cs);
    DisjointYears(days, next, done, y, all, cs);
    DistinctConcat(all, cs);
    AddYearMembers(days, next, done, y, all, cs);
  }

  /** Adding a new year's cut points leaves the earlier years' contributions
      as they were. */
  lemma OlderYears(days: map<Date, nat>, table: map<nat, seq<nat>>, done: set<nat>, y: nat, cuts: seq<nat>,
                   all: seq<Contribution>)
    requires GoodCuts(table) && table.Keys == done && y !in done && |cuts| > 0 && cuts[0] == 0
    requires forall c :: c in all <==> exists d :: IsValid(d) && d.year in done && c == Shown(days, table, d)
    ensures forall c :: c in all <==> exists d :: IsValid(d) && d.year in done && c == Shown(days, table[y := cuts], d)
  {
    var next := table[y := cuts];
    forall d | IsValid(d) && d.year in done
      ensures Shown(days, next, d) == Shown(days, table, d)
    {
    }
  }

  /** The contributions of the new year are those it shows under its cut
      points. */
  lemma NewYear(days: map<Date, nat>, table: map<nat, seq<nat>>, y: nat, cuts: seq<nat>, cs: seq<Contribution>)
    requires GoodCuts(table) && |cuts| > 0 && cuts[0] == 0
    requires forall c :: c in cs <==>
      exists d :: IsValid(d) && d.year == y && c == ContributionFor(d, CountOn(days, d), cuts)
    ensures forall c :: c in cs <==> exists d :: IsValid(d) && d.year == y && c == Shown(days, table[y := cuts], d)
  {
    var next := table[y := cuts];
    forall c | c in cs
      ensures exists d :: IsValid(d) && d.year == y && c == Shown(days, next, d)
    {
      var d :| IsValid(d) && d.year == y && c == ContributionFor(d, CountOn(days, d), cuts);
      assert c == Shown(days, next, d);
    }
    forall c | exists d :: IsValid(d) && d.year == y && c == Shown(days, next, d)
      ensures c in cs
    {
      var d :| IsValid(d) && d.year == y && c == Shown(days, next, d);
      assert c == ContributionFor(d, CountOn(days, d), cuts);
    }
  }


  /** After the `k`-th sorted year, the handled years are the first `k + 1`. */
  lemma NextDone(yearsMap: map<nat, Year>, years: seq<Year>, k: nat, done: set<nat>, y: nat)
    requires forall x :: x in yearsMap ==> yearsMap[x].year == NatToString(x)
    requires k < |years| && y in yearsMap && yearsMap[y] == years[k]
    requires forall x :: x in yearsMap ==> (x in done <==> yearsMap[x] in years[..k])
    ensures forall x :: x in yearsMap ==> (x in done + {y} <==> yearsMap[x] in years[..k + 1])
  {
    assert years[..k + 1] == years[..k] + [years[k]];
    forall x | x in yearsMap && yearsMap[x] == years[k]
      ensures x == y
    {
      NatToStringInjective(x, y);
    }
  }


  /** The loop of `ToTimeline` after the first `k` sorted years: `done`
      holds their numbers, `table` their cut points and `all` their
      contributions. */
  ghost predicate Progress(yearsMap: map<nat, Year>, days: map<Date, nat>, years: seq<Year>, k: nat,
                           done: set<nat>, table: map<nat, seq<nat>>, all: seq<Contribution>)
    requires k <= |years|
  {
    && done <= yearsMap.Keys && table.Keys == done && GoodCuts(table)
    && (forall y :: y in yearsMap ==> (y in done <==> yearsMap[y] in years[..k]))
    && Distinct(all)
    && (forall c :: c in all <==> exists d :: IsValid(d) && d.year in done && c == Shown(days, table, d))
  }

  /** Handling the `k`-th sorted year, whose number is `y`, keeps the loop's
      progress. */
  lemma Step(yearsMap: map<nat, Year>, days: map<Date, nat>, years: seq<Year>, k: nat,
             done: set<nat>, table: map<nat, seq<nat>>, all: seq<Contribution>,
             y: nat, cuts: seq<nat>, cs: seq<Contribution>)
    requires forall x :: x in yearsMap ==> yearsMap[x].year == NatToString(x)
    requires k < |years| && Progress(yearsMap, days, years, k, done, table, all)
    requires y in yearsMap && yearsMap[y] == years[k] && y !in done
    requires |cuts| > 0 && cuts[0] == 0
    requires Distinct(cs)
    requires forall c :: c in cs <==> exists d :: IsValid(d) && d.year == y && c == ContributionFor(d, CountOn(days, d), cuts)
    ensures Progress(yearsMap, days, years, k + 1, done + {y}, table[y := cuts], all + cs)
  {
    AddYear(days, table, done, y, cuts, all, cs);
    NextDone(yearsMap, years, k, done, y);
  }

  /** Once every year is handled, sorting the contributions gives the
      timeline. */
  lemma Assemble(yearsMap: map<nat, Year>, days: map<Date, nat>, table: map<nat, seq<nat>>,
                 years: seq<Year>, all: seq<Contribution>)
    requires table.Keys == yearsMap.Keys && GoodCuts(table)
    requires Descending(years, YearLt) && forall x :: x in years <==> x in yearsMap.Values
    requires Distinct(all)
    requires forall c :: c in all <==> exists d :: IsValid(d) && d.year in yearsMap && c == Shown(days, table, d)
    ensures IsTimelineOf(yearsMap, days, table, Timeline(years, Sort(all, ContributionLt)))
  {
    ContributionOrder();
    SortAscending(all, ContributionLt);
    var sorted := Sort(all, ContributionLt);
    forall c
      ensures c in sorted <==> exists d :: IsValid(d) && d.year in yearsMap && c == Shown(days, table, d)
    {
      assert c in sorted <==> c in all;
    }
  }

  /** After the last sorted year: the state has cut points for every year,
      and the sorted contributions with the sorted years form its timeline. */
  /** Once every sorted year is handled, every recorded year is done. */
  lemma AllDone(yearsMap: map<nat, Year>, years: seq<Year>, done: set<nat>)
    requires done <= yearsMap.Keys && forall x :: x in yearsMap.Values ==> x in years
    requires forall y :: y in yearsMap ==> (y in done <==> yearsMap[y] in years)
    ensures done == yearsMap.Keys
  {
    forall y | y in yearsMap
      ensures y in done
    {
      assert yearsMap[y] in yearsMap.Values;
    }
  }

  lemma Finish(yearsMap: map<nat, Year>, days: map<Date, nat>, query: Query, years: seq<Year>,
               done: set<nat>, table: map<nat, seq<nat>>, all: seq<Contribution>)
    requires Descending(years, YearLt) && forall x :: x in years <==> x in yearsMap.Values
    requires Progress(yearsMap, days, years, |years|, done, table, all)
    requires forall y :: y in table ==> YearCuts(days, y, query) == Success(table[y])
    ensures HasCuts(yearsMap, days, query) && TableOf(yearsMap, days, query, table)
    ensures IsTimelineOf(yearsMap, days, table, Timeline(years, Sort(all, ContributionLt)))
  {
    assert years[..|years|] == years;
    AllDone(yearsMap, years, done);
    Assemble(yearsMap, days, table, years, all);
  }

  // ---- the accumulated state ----

  /** The state a parse or a merge accumulates: a summary per year and a
      count per date. */
  class ParseState {
    var yearsMap: map<nat, Year>
    var days: map<Date, nat>

    ghost predicate Valid()
      reads this
    {
      WellFormed(yearsMap, days)
    }

    /** `ParseState::default()`: nothing recorded. */
    constructor ()
      ensures yearsMap == map[] && days == map[]
      ensures Valid()
    {
      yearsMap := map[];
      days := map[];
    }

    /** `update_years`, adding `amount` to the year of `date`. */
    method UpdateYears(date: Date, amount: nat)
      requires Valid() && IsValid(date)
      modifies this
      ensures yearsMap == AddToYears(old(yearsMap), date, amount)
      ensures days == old(days)
      ensures Valid()
    {
      var y := date.year;
      var prev := if y in yearsMap then yearsMap[y] else Year(NatToString(y), 0, DefaultRange);
      var text := Format(date);
      var start := prev.range.start;
      if start == [] || StrLt(text, start) {
        start := text;
      }
      var end := prev.range.end;
      if end == [] || StrLt(end, text) {
        end := text;
      }
      assert prev == YearBefore(yearsMap, date);
      assert Year(prev.year, prev.total + amount, Range(start, end)) == Widen(prev, date, amount);
      yearsMap := yearsMap[y := Year(prev.year, prev.total + amount, Range(start, end))];
    }

    /** `update_days`, adding `amount` to the count of `date`. */
    method UpdateDays(date: Date, amount: nat)
      requires Valid() && IsValid(date)
      modifies this
      ensures days == AddToDays(old(days), date, amount)
      ensures yearsMap == old(yearsMap)
      ensures Valid()
    {
      var count := if date in days then days[date] else 0;
      days := days[date := count + amount];
    }

    /** The contributions of one year: the recorded days of that year (the
        year's text compared with each date's year as text), backfilled,
        classified under the year's cut points. */
    method YearContributions(year: Year, y: nat, query: Query) returns (r: Result<seq<Contribution>>)
      requires Valid() && y in yearsMap && yearsMap[y] == year
      ensures r.Success? <==> YearCuts(days, y, query).Success?
      ensures r.Failure? ==> r.error == YearCuts(days, y, query).error
      ensures r.Success? ==> Distinct(r.value)
      ensures r.Success? ==> forall c :: c in r.value <==>
        exists d :: IsValid(d) && d.year == y && c == ContributionFor(d, CountOn(days, d), YearCuts(days, y, query).value)
    {
      var inYear := map d | d in days && NatToString(d.year) == year.year :: days[d];
      var filled := Backfill(y, inYear);
      forall d | d in inYear
        ensures d.year == y
      {
        NatToStringInjective(d.year, y);
      }
      assert forall d :: d in filled <==> IsValid(d) && d.year == y;
      var counts := Values(filled);
      FilledCounts(filled, days, y, counts);
      MaxSameElements(counts, YearCounts(days, y));
      var cuts :- ComputeQuartiles(counts, query);
      var cs := CreateContributions(filled, cuts);
      forall c
        ensures c in cs <==> exists d :: IsValid(d) && d.year == y && c == ContributionFor(d, CountOn(days, d), cuts)
      {
        if c in cs {
          var d :| d in filled && c == ContributionFor(d, filled[d], cuts);
          assert c == ContributionFor(d, CountOn(days, d), cuts);
        }
        if exists d :: IsValid(d) && d.year == y && c == ContributionFor(d, CountOn(days, d), cuts) {
          var d :| IsValid(d) && d.year == y && c == ContributionFor(d, CountOn(days, d), cuts);
          assert c == ContributionFor(d, filled[d], cuts);
        }
      }
      return Success(cs);
    }

    /** `Timeline::try_from(&ParseState)`, the second half of `parse`: the
        year summaries sorted newest first, then for each year its
        backfilled and classified days, all sorted. Fails exactly when some
        year has no cut points. */
    method ToTimeline(query: Query) returns (r: Result<Timeline>, ghost table: map<nat, seq<nat>>)
      requires Valid()
      ensures r.Success? <==> HasCuts(yearsMap, days, query)
      ensures r.Failure? ==> r.error == NoQuartile
      ensures r.Success? ==> TableOf(yearsMap, days, query, table) && IsTimelineOf(yearsMap, days, table, r.value)
    {
      var years := SortedYears(yearsMap);
      var all: seq<Contribution> := [];
      ghost var done: set<nat> := {};
      table := map[];
      for k := 0 to |years|
        invariant Progress(yearsMap, days, years, k, done, table, all)
        invariant forall y :: y in table ==> YearCuts(days, y, query) == Success(table[y])
      {
        var year := years[k];
        ghost var key := NextKey(yearsMap, years, k, done);
        var parsed := ParseNat(year.year);
        var y := parsed.value;
        var res := YearContributions(year, y, query);
        if res.Failure? {
          return Failure(res.error), table;
        }
        var cs := res.value;
        ghost var cuts := YearCuts(days, y, query).value;
        Step(yearsMap, days, years, k, done, table, all, y, cuts, cs);
        all := all + cs;
        table := table[y := cuts];
        done := done + {y};
      }
      Finish(yearsMap, days, query, years, done, table, all);
      r := Success(Timeline(years, Sort(all, ContributionLt)));
    }
  }

  // ---- properties of timelines ----

  /** A state has only one timeline: neither the iteration order of the
      maps nor the order in which years are processed shows in the result. */
  lemma TimelineUnique(years: map<nat, Year>, days: map<Date, nat>, table: map<nat, seq<nat>>, t1: Timeline, t2: Timeline)
    requires GoodCuts(table) && table.Keys == years.Keys
    requires IsTimelineOf(years, days, table, t1) && IsTimelineOf(years, days, table, t2)
    ensures t1 == t2
  {
    YearOrder();
    DescendingUnique(t1.years, t2.years, YearLt);
    ContributionOrder();
    AscendingUnique(t1.contributions, t2.contributions, ContributionLt);
  }

  /** Each recorded year contributes exactly one entry per calendar day,
      carrying that day's count (0 for a day without a record), and nothing
      else is in the timeline. */
  lemma TimelineDense(years: map<nat, Year>, days: map<Date, nat>, table: map<nat, seq<nat>>, t: Timeline, d: Date)
    requires GoodCuts(table) && table.Keys == years.Keys && IsTimelineOf(years, days, table, t)
    requires IsValid(d) && d.year in years
    ensures exists i :: 0 <= i < |t.contributions| && t.contributions[i].date == Format(d)
    ensures forall i :: 0 <= i < |t.contributions| && t.contributions[i].date == Format(d) ==>
      t.contributions[i] == ContributionFor(d, CountOn(days, d), table[d.year])
    ensures forall i, j :: 0 <= i < j < |t.contributions| ==> t.contributions[i].date != t.contributions[j].date
  {
    var cs := t.contributions;
    var c := Shown(days, table, d);
    assert c in cs;
    forall i | 0 <= i < |cs| && cs[i].date == Format(d)
      ensures cs[i] == c
    {
      assert cs[i] in cs;
      var e :| IsValid(e) && e.year in years && cs[i] == Shown(days, table, e);
      FormatInjective(d, e);
    }
    forall i, j | 0 <= i < j < |cs|
      ensures cs[i].date != cs[j].date
    {
      assert cs[i] in cs && cs[j] in cs;
      var a :| IsValid(a) && a.year in years && cs[i] == Shown(days, table, a);
      var b :| IsValid(b) && b.year in years && cs[j] == Shown(days, table, b);
      if cs[i].date == cs[j].date {
        FormatInjective(a, b);
        ContributionOrder();
      }
    }
  }

  /** The years come newest first: their texts strictly decrease, and for
      four-digit years so do their numbers. */
  lemma YearsNewestFirst(years: map<nat, Year>, days: map<Date, nat>, table: map<nat, seq<nat>>, t: Timeline, i: nat, j: nat)
    requires WellFormed(years, days)
    requires GoodCuts(table) && table.Keys == years.Keys && IsTimelineOf(years, days, table, t)
    requires i < j < |t.years|
    ensures StrLt(t.years[j].year, t.years[i].year)
    ensures exists a, b :: (&& a in years && b in years && t.years[i] == years[a] && t.years[j] == years[b]
                            && (1000 <= a && 1000 <= b ==> b < a))
  {
    assert t.years[i] in t.years && t.years[j] in t.years;
    var a :| a in years && years[a] == t.years[i];
    var b :| b in years && years[b] == t.years[j];
    YearOrder();
    if NatToString(a) == NatToString(b) {
      NatToStringInjective(a, b);
    }
    DescendingByYear(t.years, i, j);
    if 1000 <= a && 1000 <= b {
      FourDigitOrder(b, a);
    }
  }

  /** With one recorded year, the timeline lists just that year. */
  lemma SingleYear(years: map<nat, Year>, y: nat, year: Year, days: map<Date, nat>, table: map<nat, seq<nat>>, t: Timeline)
    requires years == map[y := year]
    requires GoodCuts(table) && table.Keys == years.Keys
    requires IsTimelineOf(years, days, table, t)
    ensures t.years == [year]
  {
    YearOrder();
    assert years[y] == year;
    assert forall x :: x in years.Values <==> x == year;
    DescendingUnique(t.years, [year], YearLt);
  }

  /** With nothing recorded, the timeline is the default, empty one. */
  lemma EmptyTimeline(table: map<nat, seq<nat>>, t: Timeline)
    requires table == map[] && IsTimelineOf(map[], map[], table, t)
    ensures t == DefaultTimeline
  {
    if t.years != [] {
      Member(t.years, 0);
    }
    if t.contributions != [] {
      Member(t.contributions, 0);
    }
  }
}
