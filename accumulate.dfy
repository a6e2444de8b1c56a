/** The two accumulators that the parser and the merger fill: a summary per
    year (total and first/last date) and a count per date. `update_years`
    and `update_days` are written here as functions on the maps; replaying a
    sequence of updates gives the state after a parse or a merge, and the
    lemmas say what that state holds. */
module Accumulate {
  import opened Text
  import opened Calendar
  import opened Types

  /** One update: a date and the amount added for it (1 for each log line
      in the parser, the contribution's count in the merger). */
  datatype Entry = Entry(date: Date, amount: nat)

  /** The summary of `d`'s year before an update: the recorded one, or a
      fresh one with total 0 and an unset range. */
  function YearBefore(years: map<nat, Year>, d: Date): Year {
    if d.year in years then years[d.year] else Year(NatToString(d.year), 0, DefaultRange)
  }

  /** A year summary after adding `amount` on date `d`. An empty range end
      counts as unset. */
  function Widen(prev: Year, d: Date, amount: nat): (r: Year)
    ensures r.year == prev.year && r.total == prev.total + amount
  {
    var date := Format(d);
    var start := if prev.range.start == [] || StrLt(date, prev.range.start) then date else prev.range.start;
    var end := if prev.range.end == [] || StrLt(prev.range.end, date) then date else prev.range.end;
    Year(prev.year, prev.total + amount, Range(start, end))
  }

  /** `update_years`: adds `amount` to the total of `d`'s year, creating
      the year first if needed, and widens the range to include `d`. */
  function AddToYears(years: map<nat, Year>, d: Date, amount: nat): (r: map<nat, Year>)
    ensures r.Keys == years.Keys + {d.year}
    ensures forall y :: y in years && y != d.year ==> r[y] == years[y]
  {
    years[d.year := Widen(YearBefore(years, d), d, amount)]
  }

  /** The count recorded for `d`, 0 if there is none. */
  function CountOn(days: map<Date, nat>, d: Date): nat {
    if d in days then days[d] else 0
  }

  /** `update_days`: adds `amount` to the count of `d`, starting from 0. */
  function AddToDays(days: map<Date, nat>, d: Date, amount: nat): (r: map<Date, nat>)
    ensures r.Keys == days.Keys + {d}
    ensures CountOn(r, d) == CountOn(days, d) + amount
    ensures forall e :: e != d ==> CountOn(r, e) == CountOn(days, e)
  {
    days[d := CountOn(days, d) + amount]
  }

  /** The year map after applying `es` in order. */
  function ReplayYears(years: map<nat, Year>, es: seq<Entry>): map<nat, Year>
    decreases |es|
  {
    if es == [] then years
    else
      var last := es[|es| - 1];
      AddToYears(ReplayYears(years, es[..|es| - 1]), last.date, last.amount)
  }

  /** The day map after applying `es` in order. */
  function ReplayDays(days: map<Date, nat>, es: seq<Entry>): map<Date, nat>
    decreases |es|
  {
    if es == [] then days
    else
      var last := es[|es| - 1];
      AddToDays(ReplayDays(days, es[..|es| - 1]), last.date, last.amount)
  }

  /** Replaying one more entry applies it to the replayed maps. */
  lemma ReplaySnoc(years: map<nat, Year>, days: map<Date, nat>, es: seq<Entry>, e: Entry)
    ensures ReplayYears(years, es + [e]) == AddToYears(ReplayYears(years, es), e.date, e.amount)
    ensures ReplayDays(days, es + [e]) == AddToDays(ReplayDays(days, es), e.date, e.amount)
  {
    assert (es + [e])[..|es|] == es;
  }

  // ---- what the entries add up to ----

  /** The amounts of the entries dated `d`, added up. */
  function SumOn(es: seq<Entry>, d: Date): nat
    decreases |es|
  {
    if es == [] then 0
    else SumOn(es[..|es| - 1], d) + (if es[|es| - 1].date == d then es[|es| - 1].amount else 0)
  }

  /** The amounts of the entries in year `y`, added up. */
  function SumInYear(es: seq<Entry>, y: nat): nat
    decreases |es|
  {
    if es == [] then 0
    else SumInYear(es[..|es| - 1], y) + (if es[|es| - 1].date.year == y then es[|es| - 1].amount else 0)
  }

  /** The dates of the entries in year `y`, in entry order. */
  function DatesIn(es: seq<Entry>, y: nat): (ds: seq<Date>)
    ensures forall d :: d in ds <==> exists e :: e in es && e.date == d && d.year == y
    decreases |es|
  {
    if es == [] then []
    else
      var prev := DatesIn(es[..|es| - 1], y);
      var last := es[|es| - 1];
      assert forall e :: e in es <==> e in es[..|es| - 1] || e == last;
      if last.date.year == y then prev + [last.date] else prev
  }

  /** The earliest of a non-empty list of dates. */
  function Earliest(ds: seq<Date>): (e: Date)
    requires ds != []
    ensures e in ds && forall x :: x in ds ==> !Before(x, e)
    decreases |ds|
  {
    var last := ds[|ds| - 1];
    if |ds| == 1 then last
    else
      var prev := Earliest(ds[..|ds| - 1]);
      assert forall x :: x in ds ==> x in ds[..|ds| - 1] || x == last;
      if Before(last, prev) then last else prev
  }

  /** The latest of a non-empty list of dates. */
  function Latest(ds: seq<Date>): (e: Date)
    requires ds != []
    ensures e in ds && forall x :: x in ds ==> !Before(e, x)
    decreases |ds|
  {
    var last := ds[|ds| - 1];
    if |ds| == 1 then last
    else
      var prev := Latest(ds[..|ds| - 1]);
      assert forall x :: x in ds ==> x in ds[..|ds| - 1] || x == last;
      if Before(prev, last) then last else prev
  }

  predicate AllValid(es: seq<Entry>) {
    forall i :: 0 <= i < |es| ==> IsValid(es[i].date)
  }

  // ---- replay lemmas ----

  /** Every date's count is its earlier count plus the amounts of the
      entries for it; a date is a key once it has been updated. */
  lemma {:induction false} ReplayDaysCount(days: map<Date, nat>, es: seq<Entry>, d: Date)
    ensures CountOn(ReplayDays(days, es), d) == CountOn(days, d) + SumOn(es, d)
    ensures d in ReplayDays(days, es) <==> d in days || exists e :: e in es && e.date == d
    decreases |es|
  {
    if es != [] {
      var prefix, last := es[..|es| - 1], es[|es| - 1];
      ReplayDaysCount(days, prefix, d);
      assert forall e :: e in es <==> e in prefix || e == last;
    }
  }

  /** The total of a year that had none before is the amount of its
      entries, and its text is the year number. */
  lemma {:induction false} ReplayYearsTotal(es: seq<Entry>, y: nat)
    ensures y in ReplayYears(map[], es) <==> DatesIn(es, y) != []
    ensures y in ReplayYears(map[], es) ==>
      ReplayYears(map[], es)[y].year == NatToString(y) && ReplayYears(map[], es)[y].total == SumInYear(es, y)
    ensures DatesIn(es, y) == [] ==> SumInYear(es, y) == 0
    decreases |es|
  {
    if es != [] {
      var prefix, last := es[..|es| - 1], es[|es| - 1];
      ReplayYearsTotal(prefix, y);
      var before, after := ReplayYears(map[], prefix), ReplayYears(map[], es);
      assert after == AddToYears(before, last.date, last.amount);
      if last.date.year == y {
        assert DatesIn(es, y) == DatesIn(prefix, y) + [last.date];
        assert after[y] == Widen(YearBefore(before, last.date), last.date, last.amount);
      } else {
        assert DatesIn(es, y) == DatesIn(prefix, y);
      }
    }
  }

  /** A range that runs from `first` to `final` widens to include `d`:
      comparing the text forms compares the dates. */
  lemma WidenRange(prev: Year, d: Date, amount: nat, first: Date, final: Date)
    requires IsValid(d) && IsValid(first) && IsValid(final)
    requires prev.range == Range(Format(first), Format(final))
    ensures Widen(prev, d, amount).range
         == Range(Format(if Before(d, first) then d else first), Format(if Before(final, d) then d else final))
  {
    FormatOrder(d, first);
    FormatOrder(final, d);
  }

  /** Replayed from nothing, a year's range runs from its earliest to its
      latest entry date. */
  lemma {:induction false} ReplayYearsRange(es: seq<Entry>, y: nat)
    requires AllValid(es)
    requires DatesIn(es, y) != []
    ensures y in ReplayYears(map[], es)
    ensures ReplayYears(map[], es)[y].range
         == Range(Format(Earliest(DatesIn(es, y))), Format(Latest(DatesIn(es, y))))
    decreases |es|
  {
    ReplayYearsTotal(es, y);
    var prefix, last := es[..|es| - 1], es[|es| - 1];
    var before, after := ReplayYears(map[], prefix), ReplayYears(map[], es);
    assert after == AddToYears(before, last.date, last.amount);
    var ds, earlier := DatesIn(es, y), DatesIn(prefix, y);
    assert AllValid(prefix);
    if last.date.year != y {
      assert ds == earlier;
      ReplayYearsRange(prefix, y);
    } else if earlier == [] {
      assert ds == [last.date];
      ReplayYearsTotal(prefix, y);
      assert after[y] == Widen(YearBefore(before, last.date), last.date, last.amount);
    } else {
      ReplayYearsRange(prefix, y);
      assert ds == earlier + [last.date];
      assert ds[..|ds| - 1] == earlier;
      var first, final := Earliest(earlier), Latest(earlier);
      assert exists e :: e in prefix && e.date == first;
      assert exists e :: e in prefix && e.date == final;
      assert after[y] == Widen(before[y], last.date, last.amount);
      WidenRange(before[y], last.date, last.amount, first, final);
    }
  }

  /** Replaying two runs of entries one after the other is replaying them
      together. */
  lemma {:induction false} ReplayAppend(years: map<nat, Year>, days: map<Date, nat>, a: seq<Entry>, b: seq<Entry>)
    ensures ReplayYears(years, a + b) == ReplayYears(ReplayYears(years, a), b)
    ensures ReplayDays(days, a + b) == ReplayDays(ReplayDays(days, a), b)
    decreases |b|
  {
    if b == [] {
      assert a + b == a;
    } else {
      var init, last := b[..|b| - 1], b[|b| - 1];
      assert (a + b)[..|a + b| - 1] == a + init;
      assert (a + b)[|a + b| - 1] == last;
      ReplayAppend(years, days, a, init);
      assert ReplayYears(years, a + b) == AddToYears(ReplayYears(years, a + init), last.date, last.amount);
      assert ReplayDays(days, a + b) == AddToDays(ReplayDays(days, a + init), last.date, last.amount);
    }
  }

  /** The sums add up over a concatenation. */
  lemma {:induction false} SumsAppend(a: seq<Entry>, b: seq<Entry>, y: nat, d: Date)
    ensures SumInYear(a + b, y) == SumInYear(a, y) + SumInYear(b, y)
    ensures SumOn(a + b, d) == SumOn(a, d) + SumOn(b, d)
    ensures DatesIn(a + b, y) == DatesIn(a, y) + DatesIn(b, y)
    decreases |b|
  {
    if b == [] {
      assert a + b == a;
    } else {
      var init, last := b[..|b| - 1], b[|b| - 1];
      assert (a + b)[..|a + b| - 1] == a + init;
      assert (a + b)[|a + b| - 1] == last;
      SumsAppend(a, init, y, d);
    }
  }

  // ---- consistency of the two maps ----

  /** The counts of the dates `ds`, added up. */
  function SumCounts(days: map<Date, nat>, ds: seq<Date>): nat {
    if ds == [] then 0 else CountOn(days, ds[0]) + SumCounts(days, ds[1..])
  }

  /** Every year's total is the sum of the day counts of that year, and a
      year without an entry has no counts. */
  ghost predicate Consistent(years: map<nat, Year>, days: map<Date, nat>) {
    && (forall d :: d in days ==> IsValid(d))
    && (forall y :: y in years ==> years[y].total == SumCounts(days, YearDates(y)))
    && (forall d :: d in days && d.year !in years ==> days[d] == 0)
  }

  /** Updating one date changes the sum over a list without repetitions by
      the amount when the date is listed, and not at all otherwise. */
  lemma {:induction false} SumCountsUpdate(days: map<Date, nat>, ds: seq<Date>, d: Date, amount: nat)
    requires Increasing(ds)
    ensures SumCounts(AddToDays(days, d, amount), ds) == SumCounts(days, ds) + (if d in ds then amount else 0)
  {
    if ds != [] {
      assert Increasing(ds[1..]);
      SumCountsUpdate(days, ds[1..], d, amount);
      if ds[0] == d {
        assert d !in ds[1..];
      }
      assert d in ds <==> d == ds[0] || d in ds[1..];
    }
  }

  /** A list of dates none of which has a positive count sums to 0. */
  lemma {:induction false} SumCountsZero(days: map<Date, nat>, ds: seq<Date>)
    requires forall d :: d in ds ==> CountOn(days, d) == 0
    ensures SumCounts(days, ds) == 0
  {
    if ds != [] {
      SumCountsZero(days, ds[1..]);
    }
  }

  /** One update of both maps with the same date and amount, as the parser
      and the merger do, keeps them consistent. */
  lemma AddKeepsConsistent(years: map<nat, Year>, days: map<Date, nat>, d: Date, amount: nat)
    requires Consistent(years, days) && IsValid(d)
    ensures Consistent(AddToYears(years, d, amount), AddToDays(days, d, amount))
  {
    var years', days' := AddToYears(years, d, amount), AddToDays(days, d, amount);
    forall y | y in years'
      ensures years'[y].total == SumCounts(days', YearDates(y))
    {
      MonthsFromIncreasing(y, 1);
      SumCountsUpdate(days, YearDates(y), d, amount);
      if y <= LastYear {
        YearDatesExactly(y, d);
      }
      if y !in years {
        forall e | e in YearDates(y)
          ensures CountOn(days, e) == 0
        {
          if e in days {
            var i :| 0 <= i < |YearDates(y)| && YearDates(y)[i] == e;
          }
        }
        SumCountsZero(days, YearDates(y));
      }
    }
  }

  /** Replaying valid entries from consistent maps keeps them consistent. */
  lemma {:induction false} ReplayConsistent(years: map<nat, Year>, days: map<Date, nat>, es: seq<Entry>)
    requires Consistent(years, days) && AllValid(es)
    ensures Consistent(ReplayYears(years, es), ReplayDays(days, es))
    decreases |es|
  {
    if es != [] {
      var prefix, last := es[..|es| - 1], es[|es| - 1];
      ReplayConsistent(years, days, prefix);
      AddKeepsConsistent(ReplayYears(years, prefix), ReplayDays(days, prefix), last.date, last.amount);
    }
  }

  // ---- a single year ----

  /** Valid entries all in year `y`, replayed from nothing, give that year
      alone: its total is the sum of their amounts and its range runs from
      `first` to `last`, the earliest and the latest of their dates. */
  lemma ReplayInYear(es: seq<Entry>, y: nat, first: Date, last: Date)
    requires AllValid(es)
    requires forall e :: e in es ==> e.date.year == y && !Before(e.date, first) && !Before(last, e.date)
    requires (exists e :: e in es && e.date == first) && (exists e :: e in es && e.date == last)
    ensures ReplayYears(map[], es) == map[y := Year(NatToString(y), SumInYear(es, y), Range(Format(first), Format(last)))]
  {
    var years := ReplayYears(map[], es);
    forall x | x in years
      ensures x == y
    {
      ReplayYearsTotal(es, x);
      var ds := DatesIn(es, x);
      if ds != [] {
        assert ds[0] in ds;
      }
    }
    ReplayYearsTotal(es, y);
    ReplayYearsRange(es, y);
    var ds := DatesIn(es, y);
    assert first in ds && last in ds;
    var a, b := Earliest(ds), Latest(ds);
    assert !Before(a, first) && !Before(first, a);
    assert !Before(last, b) && !Before(b, last);
    assert a == first && b == last;
    var year := Year(NatToString(y), SumInYear(es, y), Range(Format(first), Format(last)));
    assert years[y] == year;
    SingletonMap(years, y, year);
  }

  lemma SingletonMap<K, V>(m: map<K, V>, k: K, v: V)
    requires k in m && m[k] == v && forall x :: x in m ==> x == k
    ensures m == map[k := v]
  {
    assert m.Keys == {k};
  }
}
