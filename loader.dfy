/** `load_data_from_csv`: from the frame `read_csv` produced to the price
    series indexed by date, or a failed load. */
module Loader {
  import opened Wrappers
  import opened Columns
  import opened PriceText
  import opened Series

  /** A column as `read_csv` typed it: numbers (with missing cells), or text
      (object dtype, with missing cells). */
  datatype Column =
    | Numeric(numbers: seq<Option<real>>)
    | Textual(texts: seq<Option<string>>)

  function Length(c: Column): nat {
    match c
    case Numeric(ns) => |ns|
    case Textual(ts) => |ts|
  }

  /** The frame after `read_csv`: the header of the columns other than the
      parsed Date column (as the file spells them), the dates, and one column
      per header name. */
  datatype Table = Table(header: seq<string>, dates: seq<Date>, columns: seq<Column>)

  predicate WellFormed(t: Table) {
    |t.columns| == |t.header|
    && forall k :: 0 <= k < |t.columns| ==> Length(t.columns[k]) == |t.dates|
  }

  /** A price cell between the cleaning and `pd.to_numeric`: a number from a
      numeric column, or cleaned text. */
  datatype Cell = Number(number: Option<real>) | Text(text: string)

  /** A numeric price column is kept; a textual one is written
      as strings (missing cells become "nan") with '$' and ',' removed. */
  function PriceCells(c: Column): (r: seq<Cell>)
    ensures |r| == Length(c)
    ensures forall i :: 0 <= i < |r| ==> (r[i].Text? <==> c.Textual?)
    ensures forall i :: 0 <= i < |r| && r[i].Text? ==> NoSeparators(r[i].text)
    ensures c.Numeric? ==> forall i :: 0 <= i < |r| ==> r[i] == Number(c.numbers[i])
    ensures c.Textual? ==> forall i :: 0 <= i < |r| ==> r[i] == Text(CleanPriceText(AsText(c.texts[i])))
  {
    match c
    case Numeric(ns) => seq(|ns|, i requires 0 <= i < |ns| => Number(ns[i]))
    case Textual(ts) => seq(|ts|, i requires 0 <= i < |ts| => Text(CleanPriceText(AsText(ts[i]))))
  }

  /** `pd.to_numeric(..., errors='coerce')` on one cell: a number stays as it
      is, and a text reads as a number only if it has a digit. */
  function ToNumber(c: Cell): (r: Option<real>)
    ensures c.Number? ==> r == c.number
    ensures c.Text? && r.Some? ==> exists i :: 0 <= i < |c.text| && IsDigit(c.text[i])
  {
    match c
    case Number(n) => n
    case Text(s) => ParseNumber(s)
  }

  /** The price cells of column k, each with the date of its row, in file order. */
  function PriceRows(t: Table, k: nat): (r: seq<Dated<Cell>>)
    requires WellFormed(t) && k < |t.columns|
    ensures |r| == |t.dates|
    ensures forall i :: 0 <= i < |r| ==> r[i].date == t.dates[i]
    ensures forall i :: 0 <= i < |r| ==> r[i].value == PriceCells(t.columns[k])[i]
  {
    var cells := PriceCells(t.columns[k]);
    seq(|t.dates|, i requires 0 <= i < |t.dates| => Dated(t.dates[i], cells[i]))
  }

  /** Every row of column k with its price as `to_numeric` reads it, in file order. */
  function ParsedRows(t: Table, k: nat): (r: seq<Dated<Option<real>>>)
    requires WellFormed(t) && k < |t.columns|
    ensures |r| == |t.dates|
    ensures forall i :: 0 <= i < |r| ==> r[i].date == t.dates[i]
    ensures forall i :: 0 <= i < |r| ==> r[i].value == ToNumber(PriceCells(t.columns[k])[i])
  {
    MapValues(ToNumber, PriceRows(t, k))
  }

  /** The price column the load uses: the checks of the header in the order
      the load meets them. The price column must be found, and then no other
      column may normalise to Date, or `set_index('Date')` selects two
      columns and raises. */
  function PriceColumn(t: Table): (r: Result<nat, LoadError>)
    ensures var names := NormaliseColumns(t.header);
      r.Success? <==> LocatePriceColumn(names).Success? && DateName !in names
    ensures var names := NormaliseColumns(t.header);
      LocatePriceColumn(names).Failure? ==> r == LocatePriceColumn(names)
    ensures var names := NormaliseColumns(t.header);
      r.Success? ==> r.value < |names| && names[r.value] == CloseLast
    ensures var names := NormaliseColumns(t.header);
      LocatePriceColumn(names).Success? && DateName in names ==> r == Failure(DuplicateDateColumn(names))
  {
    var names := NormaliseColumns(t.header);
    var located := LocatePriceColumn(names);
    if located.Failure? then located
    else if DateName in names then Failure(DuplicateDateColumn(names))
    else located
  }

  /** `load_data_from_csv` after `read_csv`: normalise the header, find the
      Close/Last column and rename it, clean textual prices, index by the one
      Date column and sort by date, convert prices to numbers and drop the
      rows without one. A failed load (the function's None) is a Failure
      saying why. */
  method LoadDataFromCsv(t: Table) returns (r: Result<seq<Dated<real>>, LoadError>)
    requires WellFormed(t)
    ensures var names := NormaliseColumns(t.header);
      r.Success? <==> Count(names, CloseLast) == 1 && PriceName !in names && DateName !in names
    ensures var names := NormaliseColumns(t.header);
      r.Failure? ==> (CloseLast !in names <==> r.error == MissingPriceColumn(names))
    ensures var names := NormaliseColumns(t.header);
      r.Failure? ==> (r.error == DuplicateDateColumn(names) <==> Count(names, CloseLast) == 1 && PriceName !in names)
    ensures r.Success? ==>
      var k := PriceColumn(t).value;
      k < |t.columns|
      && SortedByDate(r.value)
      && |r.value| <= |t.dates|
      && multiset(r.value) == multiset(DropMissing(ParsedRows(t, k)))
  {
    var names := NormaliseColumns(t.header);
    var located := LocatePriceColumn(names);
    if located.Failure? {
      return Failure(located.error);
    }
    if DateName in names {
      return Failure(DuplicateDateColumn(names));
    }
    var k := located.value;
    var rows := PriceRows(t, k);
    rows := SortByDate(rows);
    var prices := MapValues(ToNumber, rows);
    var series := DropMissing(prices);
    MapSortCommute(ToNumber, PriceRows(t, k));
    DropMissingSorted(prices);
    DropMissingPermutation(prices, ParsedRows(t, k));
    return Success(series);
  }

  /** A row is in the loaded series exactly when its price cell reads as that
      number, as many times as such rows occur. */
  lemma LoadedRows(t: Table, k: nat, series: seq<Dated<real>>, e: Dated<real>)
    requires WellFormed(t) && k < |t.columns|
    requires multiset(series) == multiset(DropMissing(ParsedRows(t, k)))
    ensures multiset(series)[e] == multiset(ParsedRows(t, k))[Dated(e.date, Some(e.value))]
    ensures e in series <==> exists i :: 0 <= i < |t.dates| && t.dates[i] == e.date
                                         && ParsedRows(t, k)[i].value == Some(e.value)
  {
    var parsed := ParsedRows(t, k);
    DropMissingCount(parsed, e);
    if e in series {
      assert Dated(e.date, Some(e.value)) in parsed;
      var i :| 0 <= i < |parsed| && parsed[i] == Dated(e.date, Some(e.value));
      assert t.dates[i] == e.date;
    }
    if exists i :: 0 <= i < |t.dates| && t.dates[i] == e.date && parsed[i].value == Some(e.value) {
      var i :| 0 <= i < |t.dates| && t.dates[i] == e.date && parsed[i].value == Some(e.value);
      assert parsed[i] == Dated(e.date, Some(e.value));
      assert multiset(parsed)[parsed[i]] > 0;
    }
  }

  /** A header without any name that normalises to Close/Last fails to load. */
  lemma NoCloseLastNoSeries(t: Table)
    requires forall c :: c in t.header ==> NormaliseName(c) != CloseLast
    ensures PriceColumn(t) == Failure(MissingPriceColumn(NormaliseColumns(t.header)))
  {
    var names := NormaliseColumns(t.header);
    assert CloseLast !in names by {
      forall i | 0 <= i < |names| ensures names[i] != CloseLast {
        assert t.header[i] in t.header;
      }
    }
  }

  /** A padded, lower-case `close/last` header is found as the price column. */
  lemma PaddedHeaderFound()
    ensures PriceColumn(Table([" close/last ", "Volume"], [], [Numeric([]), Numeric([])])) == Success(0)
  {
    var header := [" close/last ", "Volume"];
    PaddedHeaderNames(header);
    CloseLastThenVolume(NormaliseColumns(header));
  }

  lemma PaddedHeaderNames(header: seq<string>)
    requires |header| == 2 && header[0] == " close/last " && header[1] == "Volume"
    ensures var names := NormaliseColumns(header);
      |names| == 2 && names[0] == CloseLast && names[1] == "Volume"
  {
    PaddedLowerCaseHeader();
    VolumeHeader();
  }

  lemma CloseLastThenVolume(names: seq<string>)
    requires |names| == 2 && names[0] == CloseLast && names[1] == "Volume"
    ensures LocatePriceColumn(names) == Success(0) && DateName !in names
  {
    assert names[1..][1..] == [];
    assert Count(names, CloseLast) == 1;
    assert PriceName !in names;
    assert DateName !in names;
  }

  lemma VolumeHeader()
    ensures NormaliseName("Volume") == "Volume"
  {
    StripKeepsTrimmed("Volume");
    var s := "Volume";
    forall i | 0 <= i < |s|
      ensures TitleCase(s)[i] == s[i]
    {
      TitleCaseAt(s, i);
    }
  }

  /** Two rows, given newest first, with a currency-formatted price and an
      unreadable one: only the first survives, as a number. */
  lemma CurrencyRowsScenario()
    ensures var t := Table(["Close/Last"], [2, 1], [Textual([Some("$1,234.50"), Some("--")])]);
      PriceColumn(t) == Success(0) && DropMissing(ParsedRows(t, 0)) == [Dated(2, 1234.5)]
  {
    var t := Table(["Close/Last"], [2, 1], [Textual([Some("$1,234.50"), Some("--")])]);
    CloseLastOnly(t);
    var parsed := ParsedRows(t, 0);
    ParsedTwoRows(t, "$1,234.50", "--");
    DollarPriceScenario();
    UnreadableText();
    DropSecondMissing(parsed, 1234.5);
  }

  lemma ParsedTwoRows(t: Table, a: string, b: string)
    requires WellFormed(t) && |t.columns| == 1 && t.columns[0] == Textual([Some(a), Some(b)])
    ensures ParsedRows(t, 0) == [Dated(t.dates[0], ParseNumber(CleanPriceText(a))),
                                 Dated(t.dates[1], ParseNumber(CleanPriceText(b)))]
  {
    var cells := PriceCells(t.columns[0]);
    assert cells[0] == Text(CleanPriceText(a)) && cells[1] == Text(CleanPriceText(b));
  }

  lemma UnreadableText()
    ensures ParseNumber(CleanPriceText("--")) == None
  {
    CleanLeavesClean("--");
  }

  lemma DropSecondMissing(s: seq<Dated<Option<real>>>, v: real)
    requires |s| == 2 && s[0].value == Some(v) && s[1].value == None
    ensures DropMissing(s) == [Dated(s[0].date, v)]
  {
    assert s[1..][1..] == [];
  }

  /** A header holding only Close/Last finds the price column at index 0. */
  lemma CloseLastOnly(t: Table)
    requires t.header == [CloseLast]
    ensures PriceColumn(t) == Success(0)
  {
    CloseLastNormal();
    OnlyCloseLast(NormaliseColumns(t.header));
  }

  lemma OnlyCloseLast(names: seq<string>)
    requires |names| == 1 && names[0] == CloseLast
    ensures LocatePriceColumn(names) == Success(0) && DateName !in names
  {
    assert names[1..] == [];
    assert Count(names, CloseLast) == 1;
  }

  /** A second column that normalises to Date (here " date") fails the load,
      although the price column is found: `set_index('Date')` would select
      two columns. */
  lemma DuplicateDateScenario()
    ensures var t := Table([" date", "Close/Last"], [2, 1],
                           [Numeric([Some(5.0), Some(6.0)]), Textual([Some("$1,234.50"), Some("7")])]);
      PriceColumn(t) == Failure(DuplicateDateColumn(NormaliseColumns(t.header)))
  {
    var header := [" date", "Close/Last"];
    DuplicateDateNames(header);
    DateThenCloseLast(NormaliseColumns(header));
  }

  lemma DuplicateDateNames(header: seq<string>)
    requires |header| == 2 && header[0] == " date" && header[1] == CloseLast
    ensures var names := NormaliseColumns(header);
      |names| == 2 && names[0] == DateName && names[1] == CloseLast
  {
    PaddedDateHeader();
    CloseLastNormal();
  }

  lemma DateThenCloseLast(names: seq<string>)
    requires |names| == 2 && names[0] == DateName && names[1] == CloseLast
    ensures LocatePriceColumn(names) == Success(1) && DateName in names
  {
    assert names[1..][1..] == [];
    assert Count(names, CloseLast) == 1;
    assert PriceName !in names;
    assert names[0] == DateName;
  }
}
