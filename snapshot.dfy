/** The analyzer's first version (src/main.rs): it read the lines
    `<count> <date>` that `git log | sort | uniq -c` prints, grouped the days
    by year, summarised every year by its total and its first and last day,
    and classified each listed day under its year's cut points. Days
    without commits are not filled in here. The classification itself
    (`get_intensity`, `map_color`) and the cut points (`parse_quartiles`)
    are the ones of the modules Classify and Quartiles. */
module Snapshot {
  import opened Results
  import opened Text
  import opened Calendar
  import opened Types
  import opened Classify
  import opened Accumulate
  import opened Parsing

  /** `Day`: the number of commits made on a date. */
  datatype Day = Day(commits: nat, date: Date)

  // ---- reading the lines ----

  /** `parse_day`: splits the line at whitespace; it needs exactly two
      fields, the first an unsigned number and the second a date. */
  function ParseDay(line: string): (r: Result<Day>)
    ensures |Fields(line)| != 2 ==> r == Failure(FieldCount(line, |Fields(line)|))
    ensures r.Success? <==>
      |Fields(line)| == 2 && ParseNat(Fields(line)[0]).Some? && ParseDate(Fields(line)[1]).Some?
    ensures r.Success? ==>
      && ParseNat(Fields(line)[0]) == Some(r.value.commits)
      && IsValid(r.value.date) && Format(r.value.date) == Fields(line)[1]
  {
    var fields := Fields(line);
    if |fields| != 2 then
      Failure(FieldCount(line, |fields|))
    else
      match ParseNat(fields[0])
      case None => Failure(InvalidCount(fields[0]))
      case Some(commits) =>
        match ParseDate(fields[1])
        case None => Failure(InvalidDate(fields[1]))
        case Some(date) =>
          TrimSolid(fields[1]);
          Success(Day(commits, date))
  }

  /** A word without whitespace is its own trim. */
  lemma TrimSolid(w: string)
    requires w != [] && Solid(w)
    ensures Trim(w) == w
  {
    TrimPadded([], w);
    assert [] + w == w;
  }

  /** Collecting parsed lines into a result (`Iterator::collect` into a
      `Result`): the lines are parsed in order; the first that does not parse
      is the error, and otherwise there is one value per line. */
  function Collect<T>(ls: seq<string>, parse: string -> Result<T>): (r: Result<seq<T>>)
    ensures r.Success? ==>
      |r.value| == |ls| && forall i :: 0 <= i < |ls| ==> parse(ls[i]) == Success(r.value[i])
    ensures r.Failure? ==>
      exists i :: && 0 <= i < |ls| && parse(ls[i]) == Failure(r.error)
                  && forall j :: 0 <= j < i ==> parse(ls[j]).Success?
  {
    if ls == [] then
      Success([])
    else
      match parse(ls[0])
      case Failure(e) => Failure(e)
      case Success(v) =>
        var rest := Collect(ls[1..], parse);
        if rest.Failure? then
          assert forall j :: 1 <= j <= |ls[1..]| ==> ls[j] == ls[1..][j - 1];
          Failure(rest.error)
        else
          var r := [v] + rest.value;
          assert forall i :: 1 <= i < |ls| ==> ls[i] == ls[1..][i - 1] && r[i] == rest.value[i - 1];
          Success(r)
  }

  /** When every line parses, the values are collected in order. */
  lemma CollectAll<T>(ls: seq<string>, parse: string -> Result<T>, vs: seq<T>)
    requires |vs| == |ls| && forall i :: 0 <= i < |ls| ==> parse(ls[i]) == Success(vs[i])
    ensures Collect(ls, parse) == Success(vs)
  {
    var r := Collect(ls, parse);
    assert forall i :: 0 <= i < |ls| ==> parse(ls[i]).Success?;
    assert r.Success?;
    assert r.value == vs;
  }

  /** `parse_lines`: every line of the text parsed as a day. A blank line is
      an error, since it has no fields. */
  function ParseLines(raw: string): Result<seq<Day>> {
    Collect(Lines(raw), ParseDay)
  }

  // ---- the lines `uniq -c` prints ----

  /** The line `uniq -c` prints for a day: the count, a space and the date,
      after some indentation. */
  function DayLine(indent: string, day: Day): string {
    indent + NatToString(day.commits) + (" " + Format(day.date))
  }

  /** The text form of a date has no whitespace. */
  lemma FormatSolid(d: Date)
    ensures Format(d) != [] && Solid(Format(d))
  {
    var s := Format(d);
    assert forall i :: 0 <= i < |s| ==> IsDigit(s[i]) || s[i] == '-';
  }

  /** A printed number has no whitespace. */
  lemma NumberSolid(n: nat)
    ensures NatToString(n) != [] && Solid(NatToString(n))
  {
    var s := NatToString(n);
    assert forall i :: 0 <= i < |s| ==> IsDigit(s[i]);
  }

  /** Two words separated by a space, after blanks, split into those two
      words. */
  lemma FieldsOfTwo(indent: string, w: string, t: string)
    requires Blank(indent) && w != [] && Solid(w) && t != [] && Solid(t)
    ensures Fields(indent + w + (" " + t)) == [w, t]
  {
    FieldsAfterSpace(t);
    FieldsOfWord(indent, w, " " + t);
  }

  /** A space and a word split into that word. */
  lemma FieldsAfterSpace(t: string)
    requires t != [] && Solid(t)
    ensures Fields(" " + t) == [t]
  {
    var sp := " ";
    assert Blank(sp);
    FieldsOfWord(sp, t, []);
    assert sp + t + [] == " " + t;
  }

  /** An indented line splits into the count and the date. */
  lemma DayLineFields(indent: string, day: Day)
    requires Blank(indent)
    ensures Fields(DayLine(indent, day)) == [NatToString(day.commits), Format(day.date)]
  {
    NumberSolid(day.commits);
    FormatSolid(day.date);
    FieldsOfTwo(indent, NatToString(day.commits), Format(day.date));
  }

  /** A line printed for a day of a valid date parses back to that day. */
  lemma ParseDayLine(indent: string, day: Day)
    requires Blank(indent) && IsValid(day.date)
    ensures ParseDay(DayLine(indent, day)) == Success(day)
  {
    DayLineFields(indent, day);
    ParseNatToString(day.commits);
    ParseFormat(day.date);
  }

  /** A blank line is an error: it has no fields. */
  lemma BlankLineFails(line: string)
    requires Blank(line)
    ensures ParseDay(line) == Failure(FieldCount(line, 0))
  {
  }

  /** A line printed without indentation is neither empty nor holds a line
      feed, and it ends with a digit. */
  lemma DayLineShape(day: Day)
    ensures var l := DayLine([], day); l != [] && '\n' !in l && l[|l| - 1] != '\r'
  {
    var w, t := NatToString(day.commits), Format(day.date);
    var l := DayLine([], day);
    assert forall k :: 0 <= k < |w| ==> IsDigit(w[k]);
    assert forall k :: 0 <= k < |t| ==> IsDigit(t[k]) || t[k] == '-';
    assert l == w + (" " + t);
    forall k | 0 <= k < |l|
      ensures l[k] != '\n'
    {
      if k < |w| {
        assert l[k] == w[k];
      } else if k > |w| {
        assert l[k] == t[k - |w| - 1];
      }
    }
    assert l[|l| - 1] == t[9];
  }

  /** The lines printed for days of valid dates, one per line, parse back
      to those days in order. */
  lemma ParseLinesRoundTrip(days: seq<Day>)
    requires days != [] && forall i :: 0 <= i < |days| ==> IsValid(days[i].date)
    ensures ParseLines(JoinLines(seq(|days|, i requires 0 <= i < |days| => DayLine([], days[i])))) == Success(days)
  {
    var ls := seq(|days|, i requires 0 <= i < |days| => DayLine([], days[i]));
    forall i | 0 <= i < |ls|
      ensures '\n' !in ls[i] && ls[i] != [] && ls[i][|ls[i]| - 1] != '\r'
      ensures ParseDay(ls[i]) == Success(days[i])
    {
      DayLineShape(days[i]);
      ParseDayLine([], days[i]);
    }
    LinesOfJoin(ls);
    CollectAll(ls, ParseDay, days);
  }

  // ---- grouping by year ----

  /** The days of year `y`, in input order. */
  function InYear(days: seq<Day>, y: nat): (r: seq<Day>)
    ensures forall d :: d in r ==> d in days && d.date.year == y
    ensures r == [] <==> y !in YearsOf(days)
  {
    if days == [] then
      []
    else
      var last := days[|days| - 1];
      var prev := InYear(days[..|days| - 1], y);
      assert forall d :: d in days <==> d in days[..|days| - 1] || d == last;
      assert YearsOf(days) == YearsOf(days[..|days| - 1]) + {last.date.year};
      if last.date.year == y then prev + [last] else prev
  }

  /** The years of the days. */
  function YearsOf(days: seq<Day>): set<nat> {
    set d | d in days :: d.date.year
  }

  /** One more day joins the list of its year. */
  lemma InYearSnoc(days: seq<Day>, k: nat)
    requires k < |days|
    ensures YearsOf(days[..k + 1]) == YearsOf(days[..k]) + {days[k].date.year}
    ensures forall y ::
      InYear(days[..k + 1], y) == InYear(days[..k], y) + (if days[k].date.year == y then [days[k]] else [])
  {
    assert days[..k + 1][..k] == days[..k];
    assert days[..k + 1] == days[..k] + [days[k]];
  }

  /** Appending a day to its year's list keeps the map the grouping of the
      days read so far. */
  lemma GroupStep(days: seq<Day>, k: nat, m: map<nat, seq<Day>>)
    requires k < |days|
    requires m.Keys == YearsOf(days[..k]) && forall y :: y in m ==> m[y] == InYear(days[..k], y)
    ensures var y := days[k].date.year;
      var n := m[y := (if y in m then m[y] else []) + [days[k]]];
      && n.Keys == YearsOf(days[..k + 1])
      && forall x :: x in n ==> n[x] == InYear(days[..k + 1], x)
  {
    var y := days[k].date.year;
    var n := m[y := (if y in m then m[y] else []) + [days[k]]];
    InYearSnoc(days, k);
    forall x | x in n
      ensures n[x] == InYear(days[..k + 1], x)
    {
      if x == y && y !in m {
        assert InYear(days[..k], y) == [];
      }
    }
  }

  /** `map_years`: puts each day, in order, at the end of its year's list. */
  method MapYears(days: seq<Day>) returns (m: map<nat, seq<Day>>)
    ensures m.Keys == YearsOf(days)
    ensures forall y :: y in m ==> m[y] == InYear(days, y)
  {
    m := map[];
    for k := 0 to |days|
      invariant m.Keys == YearsOf(days[..k])
      invariant forall y :: y in m ==> m[y] == InYear(days[..k], y)
    {
      var day := days[k];
      var y := day.date.year;
      var year := if y in m then m[y] else [];
      GroupStep(days, k, m);
      m := m[y := year + [day]];
    }
    assert days[..|days|] == days;
  }

  /** No day is lost or repeated: each day is in its own year's list as
      often as in the input, and in no other year's list. */
  lemma {:induction false} InYearCount(days: seq<Day>, y: nat, d: Day)
    ensures multiset(InYear(days, y))[d] == if d.date.year == y then multiset(days)[d] else 0
  {
    if days != [] {
      var init, last := days[..|days| - 1], days[|days| - 1];
      InYearCount(init, y, d);
      assert days == init + [last];
    }
  }

  /** Days of a single year form one list, in input order. */
  lemma {:induction false} InYearAll(days: seq<Day>, y: nat)
    requires forall i :: 0 <= i < |days| ==> days[i].date.year == y
    ensures InYear(days, y) == days
  {
    if days != [] {
      InYearAll(days[..|days| - 1], y);
      assert days == days[..|days| - 1] + [days[|days| - 1]];
    }
  }

  // ---- the year summaries ----

  /** The dates of the days, in order. */
  function DatesOfDays(days: seq<Day>): (r: seq<Date>)
    ensures |r| == |days| && forall i :: 0 <= i < |days| ==> r[i] == days[i].date
  {
    if days == [] then [] else DatesOfDays(days[..|days| - 1]) + [days[|days| - 1].date]
  }

  /** The commits of the days, added up. */
  function TotalCommits(days: seq<Day>): nat {
    if days == [] then 0 else TotalCommits(days[..|days| - 1]) + days[|days| - 1].commits
  }

  /** Totals add up over concatenation. */
  lemma {:induction false} TotalAppend(a: seq<Day>, b: seq<Day>)
    ensures TotalCommits(a + b) == TotalCommits(a) + TotalCommits(b)
    decreases |b|
  {
    if b != [] {
      var b0 := b[..|b| - 1];
      TotalAppend(a, b0);
      assert (a + b)[..|a + b| - 1] == a + b0;
      assert (a + b)[|a + b| - 1] == b[|b| - 1];
    } else {
      assert a + b == a;
    }
  }

  /** The summary of year `y`: its number as text, its total, and its
      earliest and latest day (no summary without a day). */
  function Summary(y: nat, days: seq<Day>): (r: Result<Year>)
    ensures r.Failure? <==> days == []
    ensures r.Failure? ==> r.error == NoDays(y)
  {
    if days == [] then
      Failure(NoDays(y))
    else
      var ds := DatesOfDays(days);
      Success(Year(NatToString(y), TotalCommits(days), Range(Format(Earliest(ds)), Format(Latest(ds)))))
  }

  /** A summary names its year, adds up the commits, and runs from the text
      of a day no day precedes to the text of a day no day follows. */
  lemma SummaryMeaning(y: nat, days: seq<Day>)
    requires days != []
    ensures var x := Summary(y, days).value;
      && x.year == NatToString(y) && x.total == TotalCommits(days)
      && (exists i :: && 0 <= i < |days| && x.range.start == Format(days[i].date)
                      && forall k :: 0 <= k < |days| ==> !Before(days[k].date, days[i].date))
      && (exists j :: && 0 <= j < |days| && x.range.end == Format(days[j].date)
                      && forall k :: 0 <= k < |days| ==> !Before(days[j].date, days[k].date))
  {
    var ds := DatesOfDays(days);
    var x := Summary(y, days).value;
    assert x.range == Range(Format(Earliest(ds)), Format(Latest(ds)));
    EarliestDay(days);
    LatestDay(days);
  }

  /** The earliest date of the days is the date of a day no day precedes. */
  lemma EarliestDay(days: seq<Day>)
    requires days != []
    ensures exists i :: && 0 <= i < |days| && days[i].date == Earliest(DatesOfDays(days))
                        && forall k :: 0 <= k < |days| ==> !Before(days[k].date, days[i].date)
  {
    var ds := DatesOfDays(days);
    assert forall k :: 0 <= k < |days| ==> ds[k] in ds;
    var i :| 0 <= i < |ds| && ds[i] == Earliest(ds);
  }

  /** The latest date of the days is the date of a day no day follows. */
  lemma LatestDay(days: seq<Day>)
    requires days != []
    ensures exists j :: && 0 <= j < |days| && days[j].date == Latest(DatesOfDays(days))
                        && forall k :: 0 <= k < |days| ==> !Before(days[j].date, days[k].date)
  {
    var ds := DatesOfDays(days);
    assert forall k :: 0 <= k < |days| ==> ds[k] in ds;
    var j :| 0 <= j < |ds| && ds[j] == Latest(ds);
  }

  /** Summarising one more year adds its summary to those of the years
      already summarised. */
  lemma SummariesStep(m: map<nat, seq<Day>>, rest: set<nat>, years: seq<Year>, y: nat, v: Year)
    requires rest <= m.Keys && y in rest && Summary(y, m[y]) == Success(v)
    requires forall x :: x in years <==> exists z :: z in m && z !in rest && Summary(z, m[z]) == Success(x)
    ensures forall x :: x in years + [v] <==> exists z :: z in m && z !in rest - {y} && Summary(z, m[z]) == Success(x)
  {
    forall x
      ensures x in years + [v] <==> exists z :: z in m && z !in rest - {y} && Summary(z, m[z]) == Success(x)
    {
      if x !in years + [v] {
        forall z | z in m && z !in rest - {y}
          ensures Summary(z, m[z]) != Success(x)
        {
          if z != y {
            assert z !in rest;
          }
        }
      }
    }
  }

  /** `parse_years`: summarises every year of the map, in the map's own
      order; the first year without a day is the error. */
  method ParseYears(m: map<nat, seq<Day>>) returns (r: Result<seq<Year>>)
    ensures r.Success? <==> forall y :: y in m ==> m[y] != []
    ensures r.Failure? ==> r.error.NoDays? && r.error.year in m && m[r.error.year] == []
    ensures r.Success? ==>
      && |r.value| == |m|
      && forall x :: x in r.value <==> exists y :: y in m && Summary(y, m[y]) == Success(x)
  {
    var years: seq<Year> := [];
    var rest := m.Keys;
    while rest != {}
      invariant rest <= m.Keys
      invariant |years| + |rest| == |m|
      invariant forall y :: y in m && y !in rest ==> m[y] != []
      invariant forall x :: x in years <==> exists y :: y in m && y !in rest && Summary(y, m[y]) == Success(x)
      decreases |rest|
    {
      var y :| y in rest;
      var summary := Summary(y, m[y]);
      if summary.Failure? {
        return Failure(summary.error);
      }
      SummariesStep(m, rest, years, y, summary.value);
      years := years + [summary.value];
      rest := rest - {y};
    }
    return Success(years);
  }

  /** Grouping never leaves a year without days, so the summaries of the
      grouped days never fail, and each year's total is that of its days. */
  lemma GroupedSummaries(days: seq<Day>, y: nat)
    requires y in YearsOf(days)
    ensures Summary(y, InYear(days, y)).Success?
    ensures Summary(y, InYear(days, y)).value.total == TotalCommits(InYear(days, y))
  {
  }

  // ---- the contributions ----

  /** The contribution of a day under its year's cut points. */
  function DayContribution(day: Day, cuts: seq<nat>): Contribution
    requires |cuts| > 0 && cuts[0] <= day.commits
  {
    var level := Intensity(cuts, day.commits);
    Contribution(Format(day.date), day.commits, Color(level), level)
  }

  /** `parse_contributions`: one contribution per day, in order, under the
      cut points of the day's year. Looking up a year that has no cut points
      panics, as does a count below the first cut point. */
  method ParseContributions(cutsOf: map<nat, seq<nat>>, days: seq<Day>) returns (r: Result<seq<Contribution>>)
    requires forall i :: 0 <= i < |days| ==> days[i].date.year in cutsOf
    requires forall i :: 0 <= i < |days| ==>
      |cutsOf[days[i].date.year]| > 0 && cutsOf[days[i].date.year][0] <= days[i].commits
    ensures r.Success? && |r.value| == |days|
    ensures forall i :: 0 <= i < |days| ==> r.value[i] == DayContribution(days[i], cutsOf[days[i].date.year])
  {
    var cs: seq<Contribution> := [];
    for k := 0 to |days|
      invariant |cs| == k
      invariant forall i :: 0 <= i < k ==> cs[i] == DayContribution(days[i], cutsOf[days[i].date.year])
    {
      var day := days[k];
      var intensity := GetIntensity(cutsOf[day.date.year], day.commits);
      var color := Color(intensity);
      cs := cs + [Contribution(Format(day.date), day.commits, color, intensity)];
    }
    return Success(cs);
  }

  /** A contribution carries its day: the date reads back, the count is the
      day's commits, and under the cut points `[0, 1, q25, q50, q75]` the
      intensity is at most 4, 0 exactly for a day without commits, with
      the neutral colour exactly then. */
  lemma DayContributionFacts(day: Day, cuts: seq<nat>)
    requires IsValid(day.date)
    requires |cuts| == 5 && cuts[0] == 0 && cuts[1] == 1
    ensures var c := DayContribution(day, cuts);
      && ParseDate(c.date) == Some(day.date) && c.count == day.commits
      && c.intensity <= 4 && (c.intensity == 0 <==> day.commits == 0)
      && (c.color == Neutral <==> day.commits == 0)
  {
    ParseFormat(day.date);
    IntensityZero(cuts, day.commits);
    ColorShades(Intensity(cuts, day.commits), 0);
  }

  // ---- the examples of the tests ----

  lemma Text1104() ensures Format(Date(2020, 11, 4)) == "2020-11-04" { }
  lemma Text123() ensures NatToString(123) == "123" { }

  /** `"123 2020-11-04"` is 123 commits on November 4, 2020. */
  lemma ParseDayExample()
    ensures ParseDay("123 2020-11-04") == Success(Day(123, Date(2020, 11, 4)))
  {
    ExampleLine();
    ParseDayLine([], Day(123, Date(2020, 11, 4)));
  }

  /** The test's line is the line printed for its day. */
  lemma ExampleLine()
    ensures DayLine([], Day(123, Date(2020, 11, 4))) == "123 2020-11-04"
  {
    Text1104();
    Text123();
    LiteralJoin();
    assert [] + "123" == "123";
  }

  lemma LiteralJoin()
    ensures "123" + (" " + "2020-11-04") == "123 2020-11-04"
  {
  }

  /** Days listed in increasing date order run from the first day's date
      to the last day's. */
  lemma SummaryOfIncreasing(y: nat, days: seq<Day>)
    requires days != []
    requires forall i, j :: 0 <= i < j < |days| ==> Before(days[i].date, days[j].date)
    ensures Summary(y, days).Success?
    ensures Summary(y, days).value.range == Range(Format(days[0].date), Format(days[|days| - 1].date))
  {
    var s := Summary(y, days);
    SummaryMeaning(y, days);
    var i :| && 0 <= i < |days| && s.value.range.start == Format(days[i].date)
             && forall k :: 0 <= k < |days| ==> !Before(days[k].date, days[i].date);
    assert !Before(days[0].date, days[i].date);
    var j :| && 0 <= j < |days| && s.value.range.end == Format(days[j].date)
             && forall k :: 0 <= k < |days| ==> !Before(days[j].date, days[k].date);
    assert !Before(days[j].date, days[|days| - 1].date);
  }

  /** Days with 2, 1 and 4 commits on three increasing dates of one year
      make one year with total 7 from the first date to the last. */
  lemma SummaryExample(days: seq<Day>, a: Date, b: Date, c: Date)
    requires days == [Day(2, a), Day(1, b), Day(4, c)]
    requires a.year == 2020 && b.year == 2020 && c.year == 2020
    requires Before(a, b) && Before(b, c)
    ensures YearsOf(days) == {2020} && InYear(days, 2020) == days
    ensures Summary(2020, days) == Success(Year("2020", 7, Range(Format(a), Format(c))))
  {
    ExampleGrouping(days, a, b, c);
    ExampleTotal(days, a, b, c);
    ExampleRange(days, a, b, c);
    SummaryMeaning(2020, days);
    Text2020();
  }

  lemma ExampleRange(days: seq<Day>, a: Date, b: Date, c: Date)
    requires |days| == 3 && days[0].date == a && days[1].date == b && days[2].date == c
    requires Before(a, b) && Before(b, c)
    ensures Summary(2020, days).value.range == Range(Format(a), Format(c))
  {
    forall i, j | 0 <= i < j < |days|
      ensures Before(days[i].date, days[j].date)
    {
      if i == 0 && j == 2 {
        assert Before(a, c);
      }
    }
    SummaryOfIncreasing(2020, days);
  }

  lemma ExampleGrouping(days: seq<Day>, a: Date, b: Date, c: Date)
    requires days == [Day(2, a), Day(1, b), Day(4, c)]
    requires a.year == 2020 && b.year == 2020 && c.year == 2020
    ensures YearsOf(days) == {2020} && InYear(days, 2020) == days
  {
    assert days[0] in days;
    InYearAll(days, 2020);
  }

  lemma ExampleTotal(days: seq<Day>, a: Date, b: Date, c: Date)
    requires days == [Day(2, a), Day(1, b), Day(4, c)]
    ensures TotalCommits(days) == 7
  {
    TotalAppend([Day(2, a), Day(1, b)], [Day(4, c)]);
    TotalAppend([Day(2, a)], [Day(1, b)]);
    assert [Day(2, a), Day(1, b)] + [Day(4, c)] == days;
  }

  /** The days of the test: 2, 1 and 4 commits on April 15, 16 and 17, 2020
      give the year "2020" with total 7 from 2020-04-15 to 2020-04-17. */
  lemma YearsExample(days: seq<Day>)
    requires days == [Day(2, Date(2020, 4, 15)), Day(1, Date(2020, 4, 16)), Day(4, Date(2020, 4, 17))]
    ensures YearsOf(days) == {2020} && InYear(days, 2020) == days
    ensures Summary(2020, days) == Success(Year("2020", 7, Range("2020-04-15", "2020-04-17")))
  {
    SummaryExample(days, Date(2020, 4, 15), Date(2020, 4, 16), Date(2020, 4, 17));
    Text0415();
    Text0417();
  }
}
