/** `Parser`: reads `git log --date=short` output, one date per commit,
    into the accumulated state, then derives the timeline from it. The date
    reading and the scan over a run of dated texts are shared with the
    merger, which reads the dates of contributions the same way. */
module Parsing {
  import opened Results
  import opened Text
  import opened Calendar
  import opened Types
  import opened Quartiles
  import opened Accumulate
  import opened Pipeline

  /** `parse_date`: a blank line carries no date and is skipped; any other
      line must be a date written `YYYY-MM-DD`, possibly surrounded by
      whitespace, or the whole parse fails naming the line. */
  function ParseLine(line: string): (r: Result<Option<Date>>)
    ensures r == Success(None) <==> Blank(line)
    ensures r.Failure? ==> r.error == InvalidDate(line)
    ensures r.Success? && r.value.Some? ==> IsValid(r.value.value) && Trim(line) == Format(r.value.value)
  {
    if Trim(line) == [] then
      Success(None)
    else
      match ParseDate(line)
      case Some(d) => Success(Some(d))
      case None => Failure(InvalidDate(line))
  }

  /** A line yields the date `d` exactly when, trimmed, it is the text form
      of `d`; a non-blank line yields no date only by failing. */
  lemma ParseLineIff(line: string, d: Date)
    ensures ParseLine(line) == Success(Some(d)) <==> IsValid(d) && Trim(line) == Format(d)
  {
    ParseDateIff(line, d);
  }

  // ---- reading a run of dated texts ----

  /** A text to read a date from and the amount its date receives: 1 for a
      log line, the count for a contribution. */
  datatype Item = Item(text: string, amount: nat)

  /** The outcome of reading a run of items in order: the entries of the
      items read before the first failure, and that failure, if any. */
  datatype Scan = Scan(entries: seq<Entry>, error: Option<Error>)

  /** How a text is read: no date (a blank text), a date, or a failure. */
  type Reader = string -> Result<Option<Date>>

  /** Reads the items in order with `read`, skipping texts without a date
      and stopping at the first text that fails. */
  function ScanItems(items: seq<Item>, read: Reader): (r: Scan)
    ensures |r.entries| <= |items|
    decreases |items|
  {
    if items == [] then
      Scan([], None)
    else
      var prev := ScanItems(items[..|items| - 1], read);
      var last := items[|items| - 1];
      if prev.error.Some? then
        prev
      else
        match read(last.text)
        case Failure(e) => Scan(prev.entries, Some(e))
        case Success(None) => prev
        case Success(Some(d)) => Scan(prev.entries + [Entry(d, last.amount)], None)
  }

  /** Reading two runs one after the other: the second is read only if
      the first had no failure. */
  lemma {:induction false} ScanAppend(a: seq<Item>, b: seq<Item>, read: Reader)
    ensures ScanItems(a + b, read) ==
      if ScanItems(a, read).error.Some? then ScanItems(a, read)
      else Scan(ScanItems(a, read).entries + ScanItems(b, read).entries, ScanItems(b, read).error)
    decreases |b|
  {
    if b == [] {
      assert a + b == a;
    } else {
      var init, last := b[..|b| - 1], b[|b| - 1];
      assert (a + b)[..|a + b| - 1] == a + init;
      ScanAppend(a, init, read);
      var p := ScanItems(init, read);
      if ScanItems(a, read).error.None? && p.error.None? {
        match read(last.text)
        case Failure(e) =>
        case Success(None) =>
        case Success(Some(d)) =>
          assert ScanItems(a, read).entries + p.entries + [Entry(d, last.amount)]
              == ScanItems(a, read).entries + (p.entries + [Entry(d, last.amount)]);
      }
    }
  }

  /** A scan fails exactly when some item's text fails to read, and then
      with the error of the first such item. */
  lemma {:induction false} ScanFailure(items: seq<Item>, read: Reader)
    ensures ScanItems(items, read).error.None? <==> forall i :: 0 <= i < |items| ==> read(items[i].text).Success?
    ensures ScanItems(items, read).error.Some? ==> exists i ::
      && 0 <= i < |items| && read(items[i].text).Failure?
      && ScanItems(items, read).error == Some(read(items[i].text).error)
      && forall j :: 0 <= j < i ==> read(items[j].text).Success?
    decreases |items|
  {
    if items != [] {
      var init := items[..|items| - 1];
      ScanFailure(init, read);
      assert forall i :: 0 <= i < |init| ==> items[i] == init[i];
    }
  }

  /** Every entry comes, in order, from an item whose text reads as that
      entry's date and whose amount it carries; when the scan does not
      fail, every dated item gives an entry. */
  lemma {:induction false} ScanEntries(items: seq<Item>, read: Reader)
    ensures forall e :: e in ScanItems(items, read).entries ==> exists i ::
      0 <= i < |items| && read(items[i].text) == Success(Some(e.date)) && items[i].amount == e.amount
    ensures ScanItems(items, read).error.None? ==>
      forall i, d :: 0 <= i < |items| && read(items[i].text) == Success(Some(d)) ==>
        Entry(d, items[i].amount) in ScanItems(items, read).entries
    decreases |items|
  {
    if items != [] {
      var init := items[..|items| - 1];
      ScanEntries(init, read);
      assert forall i :: 0 <= i < |init| ==> items[i] == init[i];
    }
  }

  /** Dates read by `ParseLine` are valid, so are the scanned entries. */
  lemma ScanValid(items: seq<Item>)
    ensures AllValid(ScanItems(items, ParseLine).entries)
  {
    ScanEntries(items, ParseLine);
    var es := ScanItems(items, ParseLine).entries;
    forall i | 0 <= i < |es|
      ensures IsValid(es[i].date)
    {
      assert es[i] in es;
    }
  }

  /** Items after a failure are never read. */
  lemma ScanFailed(a: seq<Item>, b: seq<Item>, read: Reader)
    requires ScanItems(a, read).error.Some?
    ensures ScanItems(a + b, read) == ScanItems(a, read)
  {
    ScanAppend(a, b, read);
  }

  /** Once a prefix of the items fails, the whole run fails the same way. */
  lemma ScanStops(items: seq<Item>, k: nat, read: Reader)
    requires k <= |items| && ScanItems(items[..k], read).error.Some?
    ensures ScanItems(items, read) == ScanItems(items[..k], read)
  {
    assert items[..k] + items[k..] == items;
    ScanFailed(items[..k], items[k..], read);
  }

  /** A scan extended by one item, after a prefix without failure. */
  lemma ScanStep(items: seq<Item>, k: nat, read: Reader)
    requires k < |items| && ScanItems(items[..k], read).error.None?
    ensures ScanItems(items[..k + 1], read) ==
      match read(items[k].text)
      case Failure(e) => Scan(ScanItems(items[..k], read).entries, Some(e))
      case Success(None) => ScanItems(items[..k], read)
      case Success(Some(d)) => Scan(ScanItems(items[..k], read).entries + [Entry(d, items[k].amount)], None)
  {
    assert items[..k + 1][..k] == items[..k];
  }

  // ---- the parser ----

  /** Each line of the input as an item worth one commit. */
  function LineItems(lines: seq<string>): (r: seq<Item>)
    ensures |r| == |lines| && forall i :: 0 <= i < |r| ==> r[i] == Item(lines[i], 1)
  {
    if lines == [] then [] else LineItems(lines[..|lines| - 1]) + [Item(lines[|lines| - 1], 1)]
  }

  /** `Parser`: the input text and the state accumulated from it. */
  class Parser {
    const input: string
    const state: ParseState

    ghost predicate Valid()
      reads this, state
    {
      state.Valid()
    }

    /** `Parser::new`: nothing read yet. */
    constructor (input: string)
      ensures this.input == input && fresh(state)
      ensures state.yearsMap == map[] && state.days == map[]
      ensures Valid()
    {
      this.input := input;
      state := new ParseState();
    }

    /** The line loop of `parse`: adds one commit to the day and to the year
        of each date line, skipping blank lines and stopping with the error
        at the first line that is neither blank nor a date. */
    method ReadLines(lines: seq<string>) returns (r: Result<()>)
      requires Valid()
      modifies state
      ensures Valid()
      ensures var scan := ScanItems(LineItems(lines), ParseLine);
        && state.yearsMap == ReplayYears(old(state.yearsMap), scan.entries)
        && state.days == ReplayDays(old(state.days), scan.entries)
        && (r.Success? <==> scan.error.None?)
        && (r.Failure? ==> r.error == scan.error.value)
    {
      ghost var items := LineItems(lines);
      for k := 0 to |lines|
        invariant Valid()
        invariant ScanItems(items[..k], ParseLine).error.None?
        invariant state.yearsMap == ReplayYears(old(state.yearsMap), ScanItems(items[..k], ParseLine).entries)
        invariant state.days == ReplayDays(old(state.days), ScanItems(items[..k], ParseLine).entries)
      {
        ScanStep(items, k, ParseLine);
        var day := ParseLine(lines[k]);
        if day.Failure? {
          ScanStops(items, k + 1, ParseLine);
          return Failure(day.error);
        }
        if day.value.Some? {
          var d := day.value.value;
          ReplaySnoc(old(state.yearsMap), old(state.days), ScanItems(items[..k], ParseLine).entries, Entry(d, 1));
          state.UpdateDays(d, 1);
          state.UpdateYears(d, 1);
        }
      }
      assert items[..|lines|] == items;
      return Success(());
    }

    /** `parse`: reads the input line by line, then derives the timeline of
        the state. */
    method Parse(query: Query) returns (r: Result<Timeline>, ghost table: map<nat, seq<nat>>)
      requires Valid()
      modifies state
      ensures Valid()
      ensures var scan := ScanItems(LineItems(Lines(input)), ParseLine);
        && state.yearsMap == ReplayYears(old(state.yearsMap), scan.entries)
        && state.days == ReplayDays(old(state.days), scan.entries)
        && (scan.error.Some? ==> r == Failure(scan.error.value))
        && (scan.error.None? ==> (r.Success? <==> HasCuts(state.yearsMap, state.days, query)))
        && (scan.error.None? && r.Failure? ==> r.error == NoQuartile)
      ensures r.Success? ==>
        TableOf(state.yearsMap, state.days, query, table) && IsTimelineOf(state.yearsMap, state.days, table, r.value)
    {
      var read := ReadLines(Lines(input));
      if read.Failure? {
        return Failure(read.error), map[];
      }
      r, table := state.ToTimeline(query);
    }
  }

  // ---- the parser's example ----

  /** Entries of one commit each, all in year `y`, replayed from nothing,
      give one year whose total is their number and whose range runs from
      `first` to `last`. */
  lemma ReplayOneYear(es: seq<Entry>, y: nat, first: Date, last: Date)
    requires AllValid(es)
    requires forall e :: e in es ==> e.date.year == y && e.amount == 1 && !Before(e.date, first) && !Before(last, e.date)
    requires (exists e :: e in es && e.date == first) && (exists e :: e in es && e.date == last)
    ensures ReplayYears(map[], es) == map[y := Year(NatToString(y), |es|, Range(Format(first), Format(last)))]
  {
    ReplayInYear(es, y, first, last);
    SumInYearOnes(es, y);
  }

  /** Entries of one commit each, all in year `y`, add up to their number. */
  lemma {:induction false} SumInYearOnes(es: seq<Entry>, y: nat)
    requires forall e :: e in es ==> e.date.year == y && e.amount == 1
    ensures SumInYear(es, y) == |es|
    decreases |es|
  {
    if es != [] {
      var init := es[..|es| - 1];
      assert forall e :: e in init ==> e in es;
      assert es[|es| - 1] in es;
      SumInYearOnes(init, y);
    }
  }

  /** Text made of spaces only. */
  predicate Spaces(s: string) {
    forall i :: 0 <= i < |s| ==> s[i] == ' '
  }

  // The text forms of the dates in the tests, one per lemma: each is
  // evaluated from its literal alone.
  lemma Text0415() ensures Format(Date(2020, 4, 15)) == "2020-04-15" { }
  lemma Text0416() ensures Format(Date(2020, 4, 16)) == "2020-04-16" { }
  lemma Text0417() ensures Format(Date(2020, 4, 17)) == "2020-04-17" { }
  lemma Text2020() ensures NatToString(2020) == "2020" { }

  /** The dates of the parser's test and their texts. */
  lemma ExampleTexts()
    ensures Format(Date(2020, 4, 15)) == "2020-04-15"
    ensures Format(Date(2020, 4, 16)) == "2020-04-16"
    ensures Format(Date(2020, 4, 17)) == "2020-04-17"
  {
    Text0415();
    Text0416();
    Text0417();
  }

  /** An indented date line reads as that date. */
  lemma IndentedDate(indent: string, d: Date, text: string)
    requires Spaces(indent) && IsValid(d) && Format(d) == text
    ensures ParseLine(indent + text) == Success(Some(d))
  {
    assert !IsWhitespace(text[0]) && !IsWhitespace(text[9]);
    TrimPadded(indent, text);
    ParseLineIff(indent + text, d);
  }

  /** The test's date lines read as their dates. */
  lemma ExampleDates(indent: string)
    requires Spaces(indent)
    ensures ParseLine(indent + "2020-04-15") == Success(Some(Date(2020, 4, 15)))
    ensures ParseLine(indent + "2020-04-16") == Success(Some(Date(2020, 4, 16)))
    ensures ParseLine(indent + "2020-04-17") == Success(Some(Date(2020, 4, 17)))
  {
    ExampleTexts();
    IndentedDate(indent, Date(2020, 4, 15), "2020-04-15");
    IndentedDate(indent, Date(2020, 4, 16), "2020-04-16");
    IndentedDate(indent, Date(2020, 4, 17), "2020-04-17");
  }

  /** A scan extended by one item. */
  lemma ScanSnoc(p: seq<Item>, x: Item, read: Reader)
    ensures ScanItems(p + [x], read) ==
      if ScanItems(p, read).error.Some? then ScanItems(p, read)
      else match read(x.text)
        case Failure(e) => Scan(ScanItems(p, read).entries, Some(e))
        case Success(None) => ScanItems(p, read)
        case Success(Some(d)) => Scan(ScanItems(p, read).entries + [Entry(d, x.amount)], None)
  {
    assert (p + [x])[..|p|] == p;
  }

  /** Nine lines that read as nothing, seven dates `a, a, b, c, c, c, c`,
      and nothing scan as seven single commits. */
  lemma ScanNineLines(ls: seq<string>, read: Reader, a: Date, b: Date, c: Date)
    requires |ls| == 9 && read(ls[0]) == Success(None) && read(ls[8]) == Success(None)
    requires read(ls[1]) == Success(Some(a)) && read(ls[2]) == Success(Some(a)) && read(ls[3]) == Success(Some(b))
    requires forall i :: 4 <= i < 8 ==> read(ls[i]) == Success(Some(c))
    ensures ScanItems(LineItems(ls), read)
         == Scan([Entry(a, 1), Entry(a, 1), Entry(b, 1), Entry(c, 1), Entry(c, 1), Entry(c, 1), Entry(c, 1)], None)
  {
    var it := seq(9, i requires 0 <= i < 9 => Item(ls[i], 1));
    var p1 := [it[0]];
    var p2 := p1 + [it[1]];
    var p3 := p2 + [it[2]];
    var p4 := p3 + [it[3]];
    var p5 := p4 + [it[4]];
    var p6 := p5 + [it[5]];
    var p7 := p6 + [it[6]];
    var p8 := p7 + [it[7]];
    var p9 := p8 + [it[8]];
    assert ScanItems(p1, read) == Scan([], None) by { ScanSnoc([], it[0], read); assert [] + [it[0]] == p1; }
    ScanSnoc(p1, it[1], read);
    ScanSnoc(p2, it[2], read);
    ScanSnoc(p3, it[3], read);
    ScanSnoc(p4, it[4], read);
    ScanSnoc(p5, it[5], read);
    ScanSnoc(p6, it[6], read);
    ScanSnoc(p7, it[7], read);
    ScanSnoc(p8, it[8], read);
    assert LineItems(ls) == p9;
  }

  /** The lines of the parser's test: an empty first line, seven dates
      indented by `indent` and a last line `tail` of spaces only (the test
      indents by 12 and 8 spaces). */
  predicate IsExample(ls: seq<string>, indent: string, tail: string) {
    && |ls| == 9 && ls[0] == "" && ls[8] == tail && Spaces(indent) && Spaces(tail)
    && ls[1] == indent + "2020-04-15" && ls[2] == indent + "2020-04-15" && ls[3] == indent + "2020-04-16"
    && forall i :: 4 <= i < 8 ==> ls[i] == indent + "2020-04-17"
  }

  /** The test's lines read without failure as seven single commits. */
  lemma ExampleScan(ls: seq<string>, indent: string, tail: string)
    requires IsExample(ls, indent, tail)
    ensures ScanItems(LineItems(ls), ParseLine)
         == Scan([Entry(Date(2020, 4, 15), 1), Entry(Date(2020, 4, 15), 1), Entry(Date(2020, 4, 16), 1),
                  Entry(Date(2020, 4, 17), 1), Entry(Date(2020, 4, 17), 1), Entry(Date(2020, 4, 17), 1),
                  Entry(Date(2020, 4, 17), 1)], None)
  {
    ExampleDates(indent);
    assert ParseLine(tail) == Success(None);
    ScanNineLines(ls, ParseLine, Date(2020, 4, 15), Date(2020, 4, 16), Date(2020, 4, 17));
  }

  /** Seven single commits on three dates of one year, in order, give that
      year alone, with total 7 and the first and last of the dates as range. */
  lemma SevenCommits(es: seq<Entry>, a: Date, b: Date, c: Date)
    requires IsValid(a) && IsValid(b) && IsValid(c) && a.year == b.year == c.year
    requires Before(a, b) && Before(b, c)
    requires es == [Entry(a, 1), Entry(a, 1), Entry(b, 1), Entry(c, 1), Entry(c, 1), Entry(c, 1), Entry(c, 1)]
    ensures ReplayYears(map[], es) == map[a.year := Year(NatToString(a.year), 7, Range(Format(a), Format(c)))]
  {
    assert forall e :: e in es ==> e == Entry(a, 1) || e == Entry(b, 1) || e == Entry(c, 1);
    assert es[0] == Entry(a, 1) && es[3] == Entry(c, 1);
    ReplayOneYear(es, a.year, a, c);
  }

  /** Joined with newlines, the test's lines split back into themselves. */
  lemma ExampleSplits(ls: seq<string>, indent: string, tail: string)
    requires IsExample(ls, indent, tail) && tail != []
    ensures Lines(JoinLines(ls)) == ls
  {
    forall i | 0 <= i < |ls|
      ensures '\n' !in ls[i] && (ls[i] == [] || ls[i][|ls[i]| - 1] != '\r')
    {
      if 0 < i < 8 {
        assert ls[i][|ls[i]| - 1] == '5' || ls[i][|ls[i]| - 1] == '6' || ls[i][|ls[i]| - 1] == '7';
      }
    }
    LinesOfJoin(ls);
  }

  /** The test input splits into its lines, reads without failure as seven
      entries, and the year map they give holds 2020 alone, with total 7
      and range 2020-04-15 to 2020-04-17. */
  lemma ParserExample(ls: seq<string>, indent: string, tail: string)
    requires IsExample(ls, indent, tail) && tail != []
    ensures Lines(JoinLines(ls)) == ls
    ensures var scan := ScanItems(LineItems(ls), ParseLine);
      && scan.error.None? && |scan.entries| == 7
      && ReplayYears(map[], scan.entries) == map[2020 := Year("2020", 7, Range("2020-04-15", "2020-04-17"))]
  {
    ExampleSplits(ls, indent, tail);
    var items := LineItems(ls);
    ExampleScan(ls, indent, tail);
    var d15, d16, d17 := Date(2020, 4, 15), Date(2020, 4, 16), Date(2020, 4, 17);
    SevenCommits(ScanItems(items, ParseLine).entries, d15, d16, d17);
    ExampleTexts();
    Text2020();
  }
}
