/**
 * The dashboard's column handling: the CSV headers after "Data Point Name"
 * are rewritten to `MM/YYYY` labels, parsed as dates, and the columns whose
 * date falls in the selected range are kept.
 *
 * `str.isalnum` and `str.title` are modelled on ASCII characters.
 */
module Dashboard {
  import opened Wrappers
  import opened Strings
  import opened Periods

  // ---------------------------------------------------------------------
  // Label formatting

  const MonthMap: map<string, string> := map[
    "Jan" := "01", "Feb" := "02", "Mar" := "03", "Apr" := "04",
    "May" := "05", "Jun" := "06", "Jul" := "07", "Aug" := "08",
    "Sep" := "09", "Oct" := "10", "Nov" := "11", "Dec" := "12"]

  /** `str.title` from a position whose preceding character is cased (`prevCased`) or not. */
  function TitleFrom(s: string, prevCased: bool): (r: string)
    ensures |r| == |s|
  {
    if s == [] then []
    else
      var c := s[0];
      var t := if IsLetter(c) then (if prevCased then LowerChar(c) else UpperChar(c)) else c;
      [t] + TitleFrom(s[1..], IsLetter(c))
  }

  /** Python's `str.title`: a letter is capitalised after a non-letter and lowered after a letter. */
  function Title(s: string): (r: string)
    ensures |r| == |s|
  {
    TitleFrom(s, false)
  }

  /** `s[:n]`. */
  function Head(s: string, n: nat): string {
    if |s| <= n then s else s[..n]
  }

  /** `s[-n:]`: the whole string when it is shorter than n. */
  function Tail(s: string, n: nat): string {
    if |s| <= n then s else s[|s| - n..]
  }

  /** The rewriting of one header in the formatting loop. */
  function FormatLabel(col: string): string {
    var cleanCol := KeepAlnum(col);
    var monthAbbr := Title(Head(cleanCol, 3));
    var year := Tail(cleanCol, 4);
    if monthAbbr in MonthMap then MonthMap[monthAbbr] + "/" + year
    else if |cleanCol| == 6 then Head(cleanCol, 2) + "/" + Tail(cleanCol, 4)
    else col
  }

  /** Three letters title-case to the first upper-cased and the rest lower-cased. */
  lemma TitleOfThreeLetters(s: string)
    requires |s| == 3 && IsLetter(s[0]) && IsLetter(s[1]) && IsLetter(s[2])
    ensures Title(s) == [UpperChar(s[0]), LowerChar(s[1]), LowerChar(s[2])]
  {
    assert s[1..][1..] == [s[2]];
    assert s[1..][1..][1..] == [];
    assert TitleFrom([s[2]], true) == [LowerChar(s[2])];
    assert TitleFrom(s[1..], true) == [LowerChar(s[1])] + TitleFrom([s[2]], true);
  }

  /** Title-casing leaves strings of digits alone. */
  lemma {:induction false} TitleOfDigits(s: string, prevCased: bool)
    requires AllDigits(s)
    ensures TitleFrom(s, prevCased) == s
  {
    if s != [] {
      TitleOfDigits(s[1..], false);
    }
  }

  /**
   * A header whose letters and digits are a month abbreviation (in any
   * case) and a four-digit year becomes that month's number, "/", the year.
   */
  lemma MonthNameLabel(col: string, abbr: string, year: string)
    requires KeepAlnum(col) == abbr + year
    requires |abbr| == 3 && IsLetter(abbr[0]) && IsLetter(abbr[1]) && IsLetter(abbr[2])
    requires [UpperChar(abbr[0]), LowerChar(abbr[1]), LowerChar(abbr[2])] in MonthMap
    requires |year| == 4
    ensures FormatLabel(col) == MonthMap[[UpperChar(abbr[0]), LowerChar(abbr[1]), LowerChar(abbr[2])]] + "/" + year
  {
    var c := abbr + year;
    assert Head(c, 3) == abbr;
    assert Tail(c, 4) == year;
    TitleOfThreeLetters(abbr);
  }

  /**
   * A header whose letters and digits are six digits (and so no month name)
   * becomes the first two, "/", the last four.
   */
  lemma NumericLabel(col: string)
    requires |KeepAlnum(col)| == 6 && AllDigits(KeepAlnum(col))
    ensures FormatLabel(col) == KeepAlnum(col)[..2] + "/" + KeepAlnum(col)[2..]
  {
    var c := KeepAlnum(col);
    TitleOfDigits(c[..3], false);
    assert Title(Head(c, 3)) == c[..3];
    assert c[..3] !in MonthMap by {
      assert IsDigit(c[0]);
    }
  }

  /** The letters and digits of "MM/YYYY" are "MMYYYY". */
  lemma KeepAlnumOfSlashed(s: string)
    requires |s| == 7 && s[2] == '/' && IsDigit(s[0]) && IsDigit(s[1]) && AllDigits(s[3..])
    ensures KeepAlnum(s) == s[..2] + s[3..]
  {
    assert s == s[..2] + s[2..3] + s[3..];
    KeepAlnumConcat(s[..2] + s[2..3], s[3..]);
    KeepAlnumConcat(s[..2], s[2..3]);
    assert s[2..3] == ['/'];
  }

  /** Two digits, a slash and four digits are left as they are. */
  lemma SlashedLabelIsFixedPoint(s: string)
    requires |s| == 7 && s[2] == '/' && IsDigit(s[0]) && IsDigit(s[1]) && AllDigits(s[3..])
    ensures FormatLabel(s) == s
  {
    KeepAlnumOfSlashed(s);
    var c := s[..2] + s[3..];
    NumericLabel(s);
    assert c[..2] + "/" + c[2..] == s;
  }

  /** Labels already in the table's MM/YYYY form are left as they are. */
  lemma CanonicalLabelIsFixedPoint(s: string)
    requires IsCanonical(s)
    ensures FormatLabel(s) == s
  {
    CanonicalShape(s);
    SlashedLabelIsFixedPoint(s);
  }

  /**
   * A one-digit month such as "3/2022" has five letters and digits, neither
   * a month name nor six digits, so the header is kept verbatim.
   */
  lemma ShortNumericLabelKept(col: string)
    requires |col| == 6 && IsDigit(col[0]) && col[1] == '/' && AllDigits(col[2..])
    ensures FormatLabel(col) == col
  {
    assert col == col[..2] + col[2..];
    assert col[..2] == col[..1] + col[1..2];
    KeepAlnumConcat(col[..2], col[2..]);
    KeepAlnumConcat(col[..1], col[1..2]);
    assert col[1..2] == ['/'];
    var c := KeepAlnum(col);
    assert c == col[..1] + col[2..];
    assert AllDigits(Head(c, 3));
    TitleOfDigits(Head(c, 3), false);
    assert Head(c, 3) !in MonthMap by {
      assert IsDigit(c[0]);
    }
  }

  /** The loop that builds formatted_columns, one label per header after the first. */
  method FormatColumns(origColumns: seq<string>) returns (formattedColumns: seq<string>)
    ensures |formattedColumns| == |origColumns|
    ensures forall i :: 0 <= i < |origColumns| ==> formattedColumns[i] == FormatLabel(origColumns[i])
  {
    formattedColumns := [];
    for i := 0 to |origColumns|
      invariant |formattedColumns| == i
      invariant forall j :: 0 <= j < i ==> formattedColumns[j] == FormatLabel(origColumns[j])
    {
      var col := origColumns[i];
      var cleanCol := KeepAlnum(col);
      var monthAbbr := Title(Head(cleanCol, 3));
      var year := Tail(cleanCol, 4);
      if monthAbbr in MonthMap {
        var month := MonthMap[monthAbbr];
        formattedColumns := formattedColumns + [month + "/" + year];
      } else if |cleanCol| == 6 {
        formattedColumns := formattedColumns + [Head(cleanCol, 2) + "/" + Tail(cleanCol, 4)];
      } else {
        formattedColumns := formattedColumns + [col];
      }
    }
  }

  /** Headers the table assembler wrote as MM/YYYY come out of the loop unchanged. */
  lemma CanonicalColumnsUnchanged(cols: seq<string>, formatted: seq<string>)
    requires forall i :: 0 <= i < |cols| ==> IsCanonical(cols[i])
    requires |formatted| == |cols| && forall i :: 0 <= i < |cols| ==> formatted[i] == FormatLabel(cols[i])
    ensures formatted == cols
  {
    forall i | 0 <= i < |cols| ensures formatted[i] == cols[i] {
      CanonicalLabelIsFixedPoint(cols[i]);
    }
  }

  // ---------------------------------------------------------------------
  // The date-range filter

  /** A calendar date, compared as `datetime.date` values are. */
  datatype Date = Date(year: int, month: int, day: int)

  predicate DateLe(a: Date, b: Date) {
    a.year < b.year || (a.year == b.year && (a.month < b.month || (a.month == b.month && a.day <= b.day)))
  }

  /** `dt.date()` of a parsed label: the first day of its month. */
  function FirstDay(m: MonthYear): Date {
    Date(m.year, m.month, 1)
  }

  /** One element of the DatetimeIndex: the first day of a month, or NaT. */
  datatype Stamp = Dated(date: MonthYear) | NaT

  /** The strings pandas' `%m/%Y` parsing turns into NaT instead of rejecting them. */
  const NatStrings: set<string> := {"", "NaT", "nat", "NAT", "nan", "NaN", "NAN"}

  /** One label under `format='%m/%Y'`: NaT for the null spellings, its month when it parses, None when it is rejected. */
  function ParseLabel(s: string): (r: Option<Stamp>)
    ensures r == Some(NaT) <==> s in NatStrings
    ensures forall m :: r == Some(Dated(m)) <==> Periods.Parse(s) == Some(m)
    ensures r.None? <==> s !in NatStrings && Periods.Parse(s).None?
  {
    if s in NatStrings then
      assert |s| <= 3;
      NatStringsDoNotParse(s);
      Some(NaT)
    else
      match Periods.Parse(s)
      case None => None
      case Some(m) => Some(Dated(m))
  }

  /** No null spelling is a `%m/%Y` label: they are too short. */
  lemma NatStringsDoNotParse(s: string)
    requires |s| <= 3
    ensures Periods.Parse(s).None?
  {
  }

  /** `pd.to_datetime(labels, format='%m/%Y')`: None when any label is rejected, which stops the page. */
  function ParseAll(labels: seq<string>): (r: Option<seq<Stamp>>)
    ensures r.None? <==> exists i :: 0 <= i < |labels| && ParseLabel(labels[i]).None?
    ensures r.Some? ==> |r.value| == |labels|
                        && forall i :: 0 <= i < |labels| ==> ParseLabel(labels[i]) == Some(r.value[i])
  {
    if labels == [] then Some([])
    else
      var n := |labels| - 1;
      match ParseAll(labels[..n])
      case None =>
        var i :| 0 <= i < n && ParseLabel(labels[..n][i]).None?;
        assert labels[i] == labels[..n][i];
        None
      case Some(ms) =>
        assert forall i :: 0 <= i < n ==> labels[i] == labels[..n][i];
        match ParseLabel(labels[n])
        case None => None
        case Some(m) => Some(ms + [m])
  }

  /** A canonical label whose month's first day lies between lo and hi, both included. */
  predicate InRange(s: string, lo: Date, hi: Date)
    requires IsCanonical(s)
  {
    DateLe(lo, FirstDay(Periods.Parse(s).value)) && DateLe(FirstDay(Periods.Parse(s).value), hi)
  }

  /**
   * filtered_date_strs: the in-range dates, rendered back by strftime, in
   * column order, or None when some date is NaT: `NaT.date()` is NaT, and
   * comparing it with the slider's dates raises, which stops the page.
   */
  function InRangeDates(dates: seq<Stamp>, lo: Date, hi: Date): (r: Option<seq<string>>)
    requires forall i :: 0 <= i < |dates| && dates[i].Dated? ==> Representable(dates[i].date)
    ensures r.None? <==> exists i :: 0 <= i < |dates| && dates[i].NaT?
    ensures r.Some? ==> |r.value| <= |dates|
    ensures r.Some? ==> forall s :: s in r.value ==> IsCanonical(s) && InRange(s, lo, hi)
  {
    if dates == [] then Some([])
    else
      var n := |dates| - 1;
      assert forall i :: 0 <= i < n ==> dates[..n][i] == dates[i];
      match InRangeDates(dates[..n], lo, hi)
      case None =>
        var i :| 0 <= i < n && dates[..n][i].NaT?;
        assert dates[i].NaT?;
        None
      case Some(rest) =>
        match dates[n]
        case NaT => None
        case Dated(d) =>
          ParseRender(d);
          Some(rest + (if DateLe(lo, FirstDay(d)) && DateLe(FirstDay(d), hi) then [Render(d)] else []))
  }

  /** One more dated column: its rendering is appended iff its month's first day lies in the range. */
  lemma InRangeDatesSnoc(dates: seq<Stamp>, d: MonthYear, lo: Date, hi: Date)
    requires forall i :: 0 <= i < |dates| && dates[i].Dated? ==> Representable(dates[i].date)
    requires Representable(d)
    ensures forall i :: 0 <= i < |dates + [Dated(d)]| && (dates + [Dated(d)])[i].Dated? ==>
              Representable((dates + [Dated(d)])[i].date)
    ensures InRangeDates(dates + [Dated(d)], lo, hi) ==
              if InRangeDates(dates, lo, hi).None? then None
              else Some(InRangeDates(dates, lo, hi).value
                        + (if DateLe(lo, FirstDay(d)) && DateLe(FirstDay(d), hi) then [Render(d)] else []))
  {
    assert forall i :: 0 <= i < |dates| ==> (dates + [Dated(d)])[i] == dates[i];
    assert (dates + [Dated(d)])[..|dates|] == dates;
  }

  /** existing_columns: the rendered dates that name a column of the frame, in their order. */
  function Existing<T(==)>(strs: seq<T>, columns: seq<T>): (r: seq<T>)
    ensures forall i :: 0 <= i < |r| ==> r[i] in strs && r[i] in columns
    ensures forall i :: 0 <= i < |strs| && strs[i] in columns ==> strs[i] in r
  {
    if strs == [] then []
    else (if strs[0] in columns then [strs[0]] else []) + Existing(strs[1..], columns)
  }

  /** One more candidate is kept, at the end, iff it names a column. */
  lemma {:induction false} ExistingSnoc<T>(strs: seq<T>, x: T, columns: seq<T>)
    ensures Existing(strs + [x], columns) == Existing(strs, columns) + (if x in columns then [x] else [])
  {
    if strs == [] {
      assert [x][1..] == [];
    } else {
      assert (strs + [x])[1..] == strs[1..] + [x];
      ExistingSnoc(strs[1..], x, columns);
    }
  }

  const DataPointName: string := "Data Point Name"

  /**
   * filtered_columns for the formatted labels and the selected range, or
   * None when the page stops: a label that is not an `MM/YYYY` period is
   * either rejected by parsing or read as NaT, and NaT raises at the range
   * comparison.
   */
  function FilterColumns(labels: seq<string>, lo: Date, hi: Date): (r: Option<seq<string>>)
    ensures r.None? <==> exists i :: 0 <= i < |labels| && Periods.Parse(labels[i]).None?
    ensures r.Some? ==> |r.value| >= 1 && r.value[0] == DataPointName
    ensures r.Some? ==> forall s :: s in r.value[1..] ==> s in labels && IsCanonical(s) && InRange(s, lo, hi)
  {
    match ParseAll(labels)
    case None => None
    case Some(dates) =>
      assert forall i :: 0 <= i < |dates| && dates[i].Dated? ==> Representable(dates[i].date) by {
        forall i | 0 <= i < |dates| && dates[i].Dated? ensures Representable(dates[i].date) {
          assert Periods.Parse(labels[i]) == Some(dates[i].date);
        }
      }
      match InRangeDates(dates, lo, hi)
      case None =>
        var i :| 0 <= i < |dates| && dates[i].NaT?;
        assert ParseLabel(labels[i]) == Some(NaT);
        None
      case Some(kept) =>
        assert forall i :: 0 <= i < |labels| ==> Periods.Parse(labels[i]) == Some(dates[i].date) by {
          forall i | 0 <= i < |labels| ensures Periods.Parse(labels[i]) == Some(dates[i].date) {
            assert !dates[i].NaT?;
          }
        }
        var existing := Existing(kept, [DataPointName] + labels);
        assert forall s :: s in existing ==> s in labels by {
          forall s | s in existing ensures s in labels {
            assert s in [DataPointName] + labels;
            assert s in kept;
          }
        }
        assert ([DataPointName] + existing)[1..] == existing;
        Some([DataPointName] + existing)
  }

  /** The labels whose date lies in the range, in column order. */
  function LabelsInRange(labels: seq<string>, lo: Date, hi: Date): (r: seq<string>)
    requires forall i :: 0 <= i < |labels| ==> IsCanonical(labels[i])
    ensures forall s :: s in r <==> s in labels && IsCanonical(s) && InRange(s, lo, hi)
  {
    if labels == [] then []
    else
      var n := |labels| - 1;
      assert IsCanonical(labels[n]);
      var d := Periods.Parse(labels[n]).value;
      LabelsInRange(labels[..n], lo, hi) + (if DateLe(lo, FirstDay(d)) && DateLe(FirstDay(d), hi) then [labels[n]] else [])
  }

  /**
   * With every label in MM/YYYY form, the filter keeps "Data Point Name"
   * and then exactly the labels whose month lies in the range, in order.
   */
  lemma FilterCanonical(labels: seq<string>, lo: Date, hi: Date)
    requires forall i :: 0 <= i < |labels| ==> IsCanonical(labels[i])
    ensures FilterColumns(labels, lo, hi) == Some([DataPointName] + LabelsInRange(labels, lo, hi))
  {
    var dates := ParseAll(labels).value;
    InRangeCanonical(labels, dates, lo, hi);
    var kept := LabelsInRange(labels, lo, hi);
    assert forall i :: 0 <= i < |kept| ==> kept[i] in [DataPointName] + labels by {
      forall i | 0 <= i < |kept| ensures kept[i] in [DataPointName] + labels {
        assert kept[i] in kept;
      }
    }
    ExistingAll(kept, [DataPointName] + labels);
  }

  lemma {:induction false} InRangeCanonical(labels: seq<string>, dates: seq<Stamp>, lo: Date, hi: Date)
    requires forall i :: 0 <= i < |labels| ==> IsCanonical(labels[i])
    requires |dates| == |labels| && forall i :: 0 <= i < |labels| ==> ParseLabel(labels[i]) == Some(dates[i])
    ensures forall i :: 0 <= i < |dates| ==> dates[i].Dated? && Representable(dates[i].date)
    ensures InRangeDates(dates, lo, hi) == Some(LabelsInRange(labels, lo, hi))
  {
    if labels != [] {
      var n := |labels| - 1;
      InRangeCanonical(labels[..n], dates[..n], lo, hi);
      assert dates[n] == Dated(Periods.Parse(labels[n]).value);
      RenderParse(labels[n]);
    }
  }

  /** Existing keeps every string when all of them name a column. */
  lemma {:induction false} ExistingAll<T>(strs: seq<T>, columns: seq<T>)
    requires forall i :: 0 <= i < |strs| ==> strs[i] in columns
    ensures Existing(strs, columns) == strs
  {
    if strs != [] {
      assert forall i :: 0 <= i < |strs[1..]| ==> strs[1..][i] == strs[i + 1];
      ExistingAll(strs[1..], columns);
      assert [strs[0]] + strs[1..] == strs;
    }
  }


  /**
   * A column whose label is a null spelling such as "nan" is read as NaT
   * without error (so parsing succeeds when every other label is a null
   * spelling or parses), and the page then stops at the range comparison.
   */
  lemma NatLabelStops(labels: seq<string>, lo: Date, hi: Date, i: int)
    requires 0 <= i < |labels| && labels[i] in NatStrings
    ensures ParseLabel(labels[i]) == Some(NaT)
    ensures (forall j :: 0 <= j < |labels| ==> labels[j] in NatStrings || Periods.Parse(labels[j]).Some?) ==>
              ParseAll(labels).Some?
    ensures FilterColumns(labels, lo, hi).None?
  {
    assert |labels[i]| <= 3;
    NatStringsDoNotParse(labels[i]);
  }

  /**
   * A one-digit-month header such as "3/2022" passes formatting unchanged and
   * parses, but strftime writes it back as "03/2022", which is not a column:
   * that column is never among the filtered columns.
   */
  lemma OneDigitMonthColumnHidden(col: string, labels: seq<string>, lo: Date, hi: Date)
    requires |col| == 6 && IsDigit(col[0]) && col[1] == '/' && AllDigits(col[2..])
    requires FilterColumns(labels, lo, hi).Some?
    ensures FormatLabel(col) == col
    ensures col !in FilterColumns(labels, lo, hi).value
  {
    ShortNumericLabelKept(col);
  }
}
