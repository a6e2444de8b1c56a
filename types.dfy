/** The records of a contribution timeline and their derived orderings
    (`#[derive(PartialOrd, Ord)]` compares the fields in declaration order). */
module Types {
  import opened Text
  import opened Sorting

  /** The first and last day of a year that saw activity, as `YYYY-MM-DD`. */
  datatype Range = Range(start: string, end: string)

  /** One year's summary: the year as text, its total count and its range. */
  datatype Year = Year(year: string, total: nat, range: Range)

  /** One calendar day of the timeline. */
  datatype Contribution = Contribution(date: string, count: nat, color: string, intensity: nat)

  /** A codeprints timeline: years newest first, contributions oldest first. */
  datatype Timeline = Timeline(years: seq<Year>, contributions: seq<Contribution>)

  /** `Range::default()`: both ends empty, which reads as "not set yet". */
  const DefaultRange: Range := Range("", "")

  /** `Timeline::default()`: no years and no contributions. */
  const DefaultTimeline: Timeline := Timeline([], [])

  /** Derived order of `Range`: by `start`, then `end`. */
  predicate RangeLt(a: Range, b: Range) {
    StrLt(a.start, b.start) || (a.start == b.start && StrLt(a.end, b.end))
  }

  /** Derived order of `Year`: by `year`, then `total`, then `range`. */
  predicate YearLt(a: Year, b: Year) {
    || StrLt(a.year, b.year)
    || (a.year == b.year && (a.total < b.total || (a.total == b.total && RangeLt(a.range, b.range))))
  }

  /** Derived order of `Contribution`: by `date`, `count`, `color`, then `intensity`. */
  predicate ContributionLt(a: Contribution, b: Contribution) {
    || StrLt(a.date, b.date)
    || (a.date == b.date && (|| a.count < b.count
                             || (a.count == b.count && (|| StrLt(a.color, b.color)
                                                        || (a.color == b.color && a.intensity < b.intensity)))))
  }

  lemma StringFacts(a: string, b: string, c: string)
    ensures !StrLt(a, a)
    ensures StrLt(a, b) && StrLt(b, c) ==> StrLt(a, c)
    ensures a == b || StrLt(a, b) || StrLt(b, a)
  {
    StrLtIrreflexive(a);
    if StrLt(a, b) && StrLt(b, c) {
      StrLtTransitive(a, b, c);
    }
    StrLtTotal(a, b);
  }

  lemma RangeOrder()
    ensures StrictTotalOrder(RangeLt)
  {
    forall a: Range, b: Range, c: Range
      ensures !RangeLt(a, a)
      ensures RangeLt(a, b) && RangeLt(b, c) ==> RangeLt(a, c)
      ensures a != b ==> RangeLt(a, b) || RangeLt(b, a)
    {
      StringFacts(a.start, b.start, c.start);
      StringFacts(a.end, b.end, c.end);
    }
  }

  /** The derived order of `Year` is a strict total order. */
  lemma YearOrder()
    ensures StrictTotalOrder(YearLt)
  {
    RangeOrder();
    forall a: Year, b: Year, c: Year
      ensures !YearLt(a, a)
      ensures YearLt(a, b) && YearLt(b, c) ==> YearLt(a, c)
      ensures a != b ==> YearLt(a, b) || YearLt(b, a)
    {
      StringFacts(a.year, b.year, c.year);
      assert RangeLt(a.range, b.range) && RangeLt(b.range, c.range) ==> RangeLt(a.range, c.range);
      assert a.range != b.range ==> RangeLt(a.range, b.range) || RangeLt(b.range, a.range);
    }
  }

  /** The derived order of `Contribution` is a strict total order. */
  lemma ContributionOrder()
    ensures StrictTotalOrder(ContributionLt)
  {
    forall a: Contribution, b: Contribution, c: Contribution
      ensures !ContributionLt(a, a)
      ensures ContributionLt(a, b) && ContributionLt(b, c) ==> ContributionLt(a, c)
      ensures a != b ==> ContributionLt(a, b) || ContributionLt(b, a)
    {
      StringFacts(a.date, b.date, c.date);
      StringFacts(a.color, b.color, c.color);
    }
  }

  /** A sorted list of contributions never has a later date before an
      earlier one: it is ascending by date string. */
  lemma AscendingByDate(cs: seq<Contribution>, i: nat, j: nat)
    requires Ascending(cs, ContributionLt) && i < j < |cs|
    ensures !StrLt(cs[j].date, cs[i].date)
  {
    var a, b := cs[i].date, cs[j].date;
    assert ContributionLt(cs[i], cs[j]);
    StrLtIrreflexive(a);
    if StrLt(a, b) {
      StrLtAsymmetric(a, b);
    }
  }

  /** In a list of years sorted then reversed, whose year strings are
      distinct, the year strings strictly decrease. */
  lemma DescendingByYear(ys: seq<Year>, i: nat, j: nat)
    requires Descending(ys, YearLt) && i < j < |ys|
    requires ys[i].year != ys[j].year
    ensures StrLt(ys[j].year, ys[i].year)
  {
    assert YearLt(ys[j], ys[i]);
  }
}
