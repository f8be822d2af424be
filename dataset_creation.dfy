/**
 * The dataset builder: the reply of the extraction model for each PDF in a
 * company's configured input directory (the whole reports as scraped, not
 * the selected pages) is cleaned, its JSON object is cut out and decoded,
 * its metric names are standardised into one record per file, and the
 * records of a company are assembled into one wide table (rows = six fixed
 * metrics, columns = distinct periods in date order).
 *
 * The model's reply is an input, and `json.loads` is the parameter `parse`:
 * any partial function from the cut-out text to a decoded object.
 */
module DatasetCreation {
  import opened Wrappers
  import opened Strings
  import Periods

  /** target_metrics: the rows of every table, in this order. */
  const TargetMetrics: seq<string> :=
    ["Revenue", "COGS", "Gross Profit", "Operating Expenses", "Operating Income", "Net Income"]

  /** The synonym table of standardize_metric. */
  const Replacements: map<string, string> := map[
    "Cost of Goods Sold" := "COGS",
    "Cost of Sales" := "COGS",
    "Operating Profit" := "Operating Income",
    "Profit from Operations" := "Operating Income",
    "Profit for the period" := "Net Income",
    "Net Profit" := "Net Income"]

  lemma TargetMetricsTrimmed()
    ensures forall t :: t in TargetMetrics ==> Strip(t) == t
  {
    forall t | t in TargetMetrics ensures Strip(t) == t {
      StripOfTrimmed(t);
    }
  }

  /**
   * standardize_metric: the name is trimmed and, when the trimmed name is
   * one of the six synonyms, replaced by its canonical metric name.
   */
  function StandardizeMetric(metric: string): (r: string)
    ensures Strip(metric) in Replacements ==> r == Replacements[Strip(metric)] && r in TargetMetrics
    ensures Strip(metric) !in Replacements ==> r == Strip(metric)
    ensures Strip(r) == r
  {
    var key := Strip(metric);
    TargetMetricsTrimmed();
    StripIdempotent(metric);
    if key in Replacements then Replacements[key] else key
  }

  /** No canonical metric name is itself a synonym. */
  lemma TargetsAreNotSynonyms(t: string)
    requires t in TargetMetrics
    ensures t !in Replacements
  {
    assert |"Revenue"| == 7 && |"COGS"| == 4 && |"Gross Profit"| == 12;
    assert |"Operating Expenses"| == 18 && |"Operating Income"| == 16 && |"Net Income"| == 10;
    assert |"Cost of Goods Sold"| == 18 && |"Cost of Sales"| == 13 && |"Operating Profit"| == 16;
    assert |"Profit from Operations"| == 22 && |"Profit for the period"| == 21 && |"Net Profit"| == 10;
    assert "Operating Expenses"[0] != "Cost of Goods Sold"[0];
    assert "Operating Income"[10] != "Operating Profit"[10];
    assert "Net Income"[4] != "Net Profit"[4];
  }

  /** Standardising twice is standardising once: no canonical name is itself a synonym. */
  lemma StandardizeIdempotent(metric: string)
    ensures StandardizeMetric(StandardizeMetric(metric)) == StandardizeMetric(metric)
  {
    var r := StandardizeMetric(metric);
    assert Strip(r) == r;
    if Strip(metric) in Replacements {
      TargetsAreNotSynonyms(r);
    } else {
      assert r == Strip(metric);
    }
  }

  /** The six table rows are fixed points of standardisation. */
  lemma TargetMetricsStandard(t: string)
    requires t in TargetMetrics
    ensures StandardizeMetric(t) == t
  {
    TargetMetricsTrimmed();
    assert Strip(t) == t;
    TargetsAreNotSynonyms(t);
  }

  // ---------------------------------------------------------------------
  // Decoded JSON

  /**
   * A decoded JSON value: null, a string, a number or boolean (JLiteral), or
   * an array or object (JContainer, which Python cannot hash); the last two
   * are kept as their text.
   */
  datatype Json = JNull | JString(s: string) | JLiteral(text: string) | JContainer(text: string)

  predicate DistinctKeys(d: seq<(string, Json)>) {
    forall i, j :: 0 <= i < j < |d| ==> d[i].0 != d[j].0
  }

  /** The dictionary json.loads builds: its items in insertion order, with distinct keys. */
  type Dict = d: seq<(string, Json)> | DistinctKeys(d)

  /** `d.get(key)`. */
  function Get(d: seq<(string, Json)>, key: string): (r: Option<Json>)
    ensures r.None? ==> forall i :: 0 <= i < |d| ==> d[i].0 != key
    ensures r.Some? ==> exists i :: 0 <= i < |d| && d[i] == (key, r.value)
  {
    if d == [] then None
    else if d[0].0 == key then Some(d[0].1)
    else
      var r := Get(d[1..], key);
      assert r.Some? ==> exists i :: 1 <= i < |d| && d[i] == (key, r.value) by {
        if r.Some? {
          var i :| 0 <= i < |d[1..]| && d[1..][i] == (key, r.value);
          assert d[i + 1] == (key, r.value);
        }
      }
      r
  }

  // ---------------------------------------------------------------------
  // Cleaning the model's reply

  const OpenFence: string := "```json"
  const CloseFence: string := "```"

  /**
   * The reply after `strip()`, after removing a leading "```json" when it
   * starts with one and then a trailing "```" when what remains ends with one.
   */
  function CleanReply(reply: string): (r: string)
    ensures var t := Strip(reply);
            var a := if StartsWith(t, OpenFence) then |OpenFence| else 0;
            && a + |r| <= |t|
            && r == t[a..a + |r|]
            && (EndsWith(t[a..], CloseFence) <==> a + |r| == |t| - |CloseFence|)
            && (!EndsWith(t[a..], CloseFence) <==> a + |r| == |t|)
  {
    var t := Strip(reply);
    var u := if StartsWith(t, OpenFence) then t[7..] else t;
    if EndsWith(u, CloseFence) then u[..|u| - 3] else u
  }

  /** A reply wrapped in a json code fence is cleaned back to what was wrapped. */
  lemma {:induction false} CleanFencedReply(body: string)
    ensures CleanReply(OpenFence + body + CloseFence) == body
  {
    var w := OpenFence + body + CloseFence;
    assert w[0] == '`' && w[|w| - 1] == '`';
    StripOfTrimmed(w);
    assert w[..7] == OpenFence;
    assert w[7..] == body + CloseFence;
    var u := w[7..];
    assert u[|u| - 3..] == CloseFence;
    assert u[..|u| - 3] == body;
  }

  /** A reply with neither fence is only stripped. */
  lemma CleanUnfencedReply(reply: string)
    requires !StartsWith(Strip(reply), OpenFence) && !EndsWith(Strip(reply), CloseFence)
    ensures CleanReply(reply) == Strip(reply)
  {
  }

  // ---------------------------------------------------------------------
  // Locating the JSON object: the leftmost match of `\{.*\}` (dot matches newline)

  function FirstIndexOf(s: string, c: char): (r: Option<nat>)
    ensures r.Some? ==> r.value < |s| && s[r.value] == c && forall k :: 0 <= k < r.value ==> s[k] != c
    ensures r.None? ==> forall k :: 0 <= k < |s| ==> s[k] != c
  {
    if s == [] then None
    else if s[0] == c then Some(0)
    else match FirstIndexOf(s[1..], c)
      case None => None
      case Some(i) => Some(i + 1)
  }

  function LastIndexOf(s: string, c: char): (r: Option<nat>)
    ensures r.Some? ==> r.value < |s| && s[r.value] == c && forall k :: r.value < k < |s| ==> s[k] != c
    ensures r.None? ==> forall k :: 0 <= k < |s| ==> s[k] != c
  {
    if s == [] then None
    else if s[|s| - 1] == c then Some(|s| - 1)
    else LastIndexOf(s[..|s| - 1], c)
  }

  /**
   * The bounds of the greedy match: from the first `{` to the last `}`
   * after it, both included; none when no `{` has a `}` after it.
   */
  function JsonSpan(s: string): (r: Option<(nat, nat)>)
    ensures r.Some? ==>
              var (i, j) := r.value;
              && i < j < |s| && s[i] == '{' && s[j] == '}'
              && (forall k :: 0 <= k < i ==> s[k] != '{')
              && (forall k :: j < k < |s| ==> s[k] != '}')
    ensures r.None? <==> forall i, j :: 0 <= i < j < |s| && s[i] == '{' ==> s[j] != '}'
  {
    match FirstIndexOf(s, '{')
    case None => None
    case Some(i) =>
      match LastIndexOf(s, '}')
      case None => None
      case Some(j) => if i < j then Some((i, j)) else None
  }

  // ---------------------------------------------------------------------
  // Building a record

  const PeriodKeyName: string := "Period"
  const Unknown: Json := JString("Unknown")

  /** One entry of file_data. */
  datatype Record = Record(filename: string, period: Json, data: map<string, Json>)

  /** `data.get("Period", "Unknown")`. */
  function PeriodOf(d: seq<(string, Json)>): (p: Json)
    requires DistinctKeys(d)
    ensures forall i :: 0 <= i < |d| && d[i].0 == PeriodKeyName ==> p == d[i].1
    ensures (forall i :: 0 <= i < |d| ==> d[i].0 != PeriodKeyName) ==> p == Unknown
  {
    match Get(d, PeriodKeyName)
    case None => Unknown
    case Some(v) =>
      assert forall i :: 0 <= i < |d| && d[i].0 == PeriodKeyName ==> v == d[i].1 by {
        var j :| 0 <= j < |d| && d[j] == (PeriodKeyName, v);
        forall i | 0 <= i < |d| && d[i].0 == PeriodKeyName ensures v == d[i].1 {
          assert d[i].0 == d[j].0;
        }
      }
      v
  }

  /**
   * `{standardize_metric(k): v for k, v in data.items() if k != "Period"}`,
   * with the normaliser as the parameter `norm`: each key other than
   * "Period", normalised, mapped to its value; a later key overwrites an
   * earlier one with the same name.
   */
  function Metrics(d: seq<(string, Json)>, norm: string -> string): map<string, Json>
  {
    if d == [] then map[]
    else
      var m := Metrics(d[..|d| - 1], norm);
      var (k, v) := d[|d| - 1];
      if k == PeriodKeyName then m else m[norm(k) := v]
  }

  /** Item `i` is the last item that is not the period and normalises to its name. */
  predicate LastWithName(d: seq<(string, Json)>, norm: string -> string, i: int)
    requires 0 <= i < |d|
  {
    forall j :: i < j < |d| && d[j].0 != PeriodKeyName ==> norm(d[j].0) != norm(d[i].0)
  }

  /** The metric names are exactly the normalised non-period keys. */
  lemma {:induction false} MetricsKeys(d: seq<(string, Json)>, norm: string -> string, name: string)
    ensures name in Metrics(d, norm) <==>
            exists i :: 0 <= i < |d| && d[i].0 != PeriodKeyName && norm(d[i].0) == name
  {
    if d != [] {
      var p := d[..|d| - 1];
      MetricsKeys(p, norm, name);
      if name in Metrics(p, norm) {
        var i :| 0 <= i < |p| && p[i].0 != PeriodKeyName && norm(p[i].0) == name;
        assert d[i] == p[i];
      }
      if exists i :: 0 <= i < |d| && d[i].0 != PeriodKeyName && norm(d[i].0) == name {
        var i :| 0 <= i < |d| && d[i].0 != PeriodKeyName && norm(d[i].0) == name;
        if i < |p| {
          assert p[i] == d[i];
        }
      }
    }
  }

  /** When two keys normalise to the same name, the later one's value is kept. */
  lemma {:induction false} MetricsLastWins(d: seq<(string, Json)>, norm: string -> string, i: int)
    requires 0 <= i < |d| && d[i].0 != PeriodKeyName && LastWithName(d, norm, i)
    ensures norm(d[i].0) in Metrics(d, norm)
    ensures Metrics(d, norm)[norm(d[i].0)] == d[i].1
  {
    var p := d[..|d| - 1];
    if i < |d| - 1 {
      assert p[i] == d[i];
      assert LastWithName(p, norm, i) by {
        forall j | i < j < |p| && p[j].0 != PeriodKeyName
          ensures norm(p[j].0) != norm(p[i].0)
        {
          assert p[j] == d[j];
        }
      }
      MetricsLastWins(p, norm, i);
    }
  }

  /** Only a standardised name equal to "Period" comes from a key that trims to "Period". */
  lemma StandardizedPeriod(k: string)
    requires StandardizeMetric(k) == PeriodKeyName
    ensures Strip(k) == PeriodKeyName
  {
    if Strip(k) in Replacements {
      TargetMetricsExcludePeriod();
    }
  }

  lemma TargetMetricsExcludePeriod()
    ensures PeriodKeyName !in TargetMetrics
  {
  }

  /** "Period" is a metric only if some other key trims to "Period". */
  lemma PeriodNotAMetric(d: seq<(string, Json)>)
    requires forall i :: 0 <= i < |d| && d[i].0 != PeriodKeyName ==> Strip(d[i].0) != PeriodKeyName
    ensures PeriodKeyName !in Metrics(d, StandardizeMetric)
  {
    MetricsKeys(d, StandardizeMetric, PeriodKeyName);
    forall i | 0 <= i < |d| && d[i].0 != PeriodKeyName
      ensures StandardizeMetric(d[i].0) != PeriodKeyName
    {
      if StandardizeMetric(d[i].0) == PeriodKeyName {
        StandardizedPeriod(d[i].0);
      }
    }
  }

  lemma StripSpacedPeriod()
    ensures Strip(" Period") == PeriodKeyName
  {
    assert " Period" == [' '] + PeriodKeyName;
    assert !IsSpace(PeriodKeyName[0]) && !IsSpace(PeriodKeyName[|PeriodKeyName| - 1]);
    StripOfSpaceThenTrimmed(' ', PeriodKeyName);
  }

  /** The edge that the lemma above excludes: a key " Period" is stored as the metric "Period". */
  lemma SpacedPeriodKeyIsAMetric(v: Json)
    ensures PeriodKeyName in Metrics([(" Period", v)], StandardizeMetric)
  {
    var key := " Period";
    assert |key| == 7 && |PeriodKeyName| == 6;
    StripSpacedPeriod();
    assert PeriodKeyName !in Replacements by {
      assert forall k :: k in Replacements ==> |k| != 6;
    }
    assert StandardizeMetric(key) == PeriodKeyName;
    var d := [(key, v)];
    assert d[..0] == [];
  }

  function BuildRecord(filename: string, d: Dict): Record {
    Record(filename, PeriodOf(d), Metrics(d, StandardizeMetric))
  }

  // ---------------------------------------------------------------------
  // Processing the files of one company

  /** A file of the input listing and the model's reply text; None when the upload or the model call raised. */
  datatype PdfReply = PdfReply(filename: string, reply: Option<string>)

  /** The dictionary decoded from a cleaned reply: none when no JSON span is found or it does not decode. */
  function SpanData(t: string, parse: string -> Option<Dict>): (r: Option<Dict>)
    ensures JsonSpan(t).None? ==> r.None?
    ensures JsonSpan(t).Some? ==> r == parse(t[JsonSpan(t).value.0..JsonSpan(t).value.1 + 1])
  {
    match JsonSpan(t)
    case None => None
    case Some((i, j)) => parse(t[i..j + 1])
  }

  function ReplyData(reply: string, parse: string -> Option<Dict>): Option<Dict> {
    SpanData(CleanReply(reply), parse)
  }

  /** The record one file contributes: none for a non-PDF, a failed call, no JSON span or undecodable JSON. */
  function FileRecord(f: PdfReply, parse: string -> Option<Dict>): (r: Option<Record>)
    ensures r.Some? <==> IsPdfName(f.filename) && f.reply.Some? && ReplyData(f.reply.value, parse).Some?
    ensures r.Some? ==> r.value.filename == f.filename
    ensures r.Some? ==> var d := ReplyData(f.reply.value, parse).value;
                        r.value.period == PeriodOf(d) && r.value.data == Metrics(d, StandardizeMetric)
  {
    if !IsPdfName(f.filename) || f.reply.None? then None
    else
      match ReplyData(f.reply.value, parse)
      case None => None
      case Some(d) => Some(BuildRecord(f.filename, d))
  }

  function Contribution(f: PdfReply, parse: string -> Option<Dict>): seq<Record> {
    match FileRecord(f, parse)
    case None => []
    case Some(r) => [r]
  }

  /** file_data after the loop over the listing. */
  function Records(files: seq<PdfReply>, parse: string -> Option<Dict>): seq<Record> {
    if files == [] then []
    else Records(files[..|files| - 1], parse) + Contribution(files[|files| - 1], parse)
  }

  /** Files contribute independently: a file that fails does not stop those after it. */
  lemma {:induction false} RecordsAppend(a: seq<PdfReply>, b: seq<PdfReply>, parse: string -> Option<Dict>)
    ensures Records(a + b, parse) == Records(a, parse) + Records(b, parse)
  {
    if b == [] {
      assert a + b == a;
    } else {
      var b' := b[..|b| - 1];
      assert (a + b)[..|a + b| - 1] == a + b';
      assert (a + b)[|a + b| - 1] == b[|b| - 1];
      RecordsAppend(a, b', parse);
    }
  }

  /** The reply text cleaning of create_dataset, reassigning the text step by step as the source does. */
  method CleanText(reply: string) returns (rawText: string)
    ensures rawText == CleanReply(reply)
  {
    rawText := Strip(reply);
    if StartsWith(rawText, OpenFence) {
      rawText := rawText[7..];
    }
    if EndsWith(rawText, CloseFence) {
      rawText := rawText[..|rawText| - 3];
    }
  }

  /** The regex search and json.loads of create_dataset's loop. */
  method DecodeReply(reply: string, parse: string -> Option<Dict>) returns (data: Option<Dict>)
    ensures data == ReplyData(reply, parse)
  {
    var rawText := CleanText(reply);
    data := DecodeSpan(rawText, parse);
  }

  method DecodeSpan(rawText: string, parse: string -> Option<Dict>) returns (data: Option<Dict>)
    ensures data == SpanData(rawText, parse)
  {
    var span := JsonSpan(rawText);
    if span.Some? {
      data := parse(rawText[span.value.0..span.value.1 + 1]);
    } else {
      data := None;
    }
  }

  /** The body of create_dataset's loop for one listed file. */
  method ProcessFile(f: PdfReply, parse: string -> Option<Dict>) returns (r: Option<Record>)
    ensures r == FileRecord(f, parse)
  {
    r := None;
    if IsPdfName(f.filename) && f.reply.Some? {
      var data := DecodeReply(f.reply.value, parse);
      if data.Some? {
        r := Some(BuildRecord(f.filename, data.value));
      }
    }
  }

  /** The loop of create_dataset over one company's listing. */
  method ExtractRecords(files: seq<PdfReply>, parse: string -> Option<Dict>) returns (records: seq<Record>)
    ensures records == Records(files, parse)
  {
    records := [];
    for i := 0 to |files|
      invariant records == Records(files[..i], parse)
    {
      assert files[..i + 1][..i] == files[..i];
      var r := ProcessFile(files[i], parse);
      if r.Some? {
        records := records + [r.value];
      }
    }
    assert files[..|files|] == files;
  }

  // ---------------------------------------------------------------------
  // The periods of the table

  /** The sort key extract_date gives a period; None stands for NaT. */
  function PeriodKey(p: Json): Option<int> {
    match p
    case JString(s) =>
      (match Periods.Parse(s)
       case Some(m) => Some(Periods.Key(m))
       case None => None)
    case _ => None
  }

  /** `a` may stand before `b`: dates ascending, undated periods last. */
  predicate SortsBefore(a: Json, b: Json) {
    PeriodKey(b).None? || (PeriodKey(a).Some? && PeriodKey(a).value <= PeriodKey(b).value)
  }

  predicate Sorted(ps: seq<Json>) {
    forall i, j :: 0 <= i < j < |ps| ==> SortsBefore(ps[i], ps[j])
  }

  predicate Distinct<T(==)>(ps: seq<T>) {
    forall i, j :: 0 <= i < j < |ps| ==> ps[i] != ps[j]
  }

  predicate HasPeriod(rs: seq<Record>, p: Json) {
    exists i :: 0 <= i < |rs| && rs[i].period == p
  }

  /** `{entry['period'] for entry in file_data if entry['period'] != "Unknown"}`, in first-seen order. */
  function DistinctPeriods(rs: seq<Record>): (ps: seq<Json>)
    ensures Distinct(ps)
    ensures forall p :: p in ps <==> p != Unknown && HasPeriod(rs, p)
    ensures (forall k :: 0 <= k < |rs| ==> rs[k].period == Unknown) ==> ps == []
  {
    if rs == [] then []
    else
      var prefix := rs[..|rs| - 1];
      var ps := DistinctPeriods(prefix);
      var p := rs[|rs| - 1].period;
      assert forall q :: HasPeriod(rs, q) <==> HasPeriod(prefix, q) || q == p by {
        forall q ensures HasPeriod(rs, q) <==> HasPeriod(prefix, q) || q == p {
          if HasPeriod(prefix, q) {
            var i :| 0 <= i < |prefix| && prefix[i].period == q;
            assert rs[i].period == q;
          }
          if HasPeriod(rs, q) && q != p {
            var i :| 0 <= i < |rs| && rs[i].period == q;
            assert prefix[i].period == q;
          }
        }
      }
      if p == Unknown || p in ps then ps else ps + [p]
  }

  /** Stable insertion of `p` after every element that may stand before it. */
  function Insert(p: Json, ps: seq<Json>): (r: seq<Json>)
    requires Sorted(ps)
    ensures Sorted(r)
    ensures |r| == |ps| + 1
    ensures forall q :: q in r <==> q == p || q in ps
  {
    if ps == [] then [p]
    else if SortsBefore(ps[0], p) then
      var rest := Insert(p, ps[1..]);
      assert forall q :: q in rest ==> SortsBefore(ps[0], q);
      [ps[0]] + rest
    else
      assert forall k :: 0 <= k < |ps| ==> SortsBefore(p, ps[k]) by {
        forall k | 0 <= k < |ps| ensures SortsBefore(p, ps[k]) {
          if k > 0 { assert SortsBefore(ps[0], ps[k]); }
        }
      }
      [p] + ps
  }

  /** `sorted(periods, key=extract_date)`, inserting the periods in their given order. */
  function SortPeriods(ps: seq<Json>): (r: seq<Json>)
    ensures Sorted(r)
    ensures |r| == |ps|
    ensures forall q :: q in r <==> q in ps
    ensures Distinct(ps) ==> Distinct(r)
  {
    if ps == [] then []
    else
      var prefix := ps[..|ps| - 1];
      var p := ps[|ps| - 1];
      var s := SortPeriods(prefix);
      assert forall q :: q in ps <==> q in prefix || q == p by {
        assert ps == prefix + [p];
      }
      var r := Insert(p, s);
      assert Distinct(ps) ==> Distinct(r) by {
        if Distinct(ps) {
          assert p !in prefix by {
            assert ps == prefix + [p];
          }
          DistinctByCount(r, s, p);
        }
      }
      r
  }

  /** A list of one more element than a duplicate-free list, holding only that list and one new element, is duplicate-free. */
  lemma DistinctByCount<T>(r: seq<T>, s: seq<T>, p: T)
    requires Distinct(s) && p !in s
    requires |r| == |s| + 1
    requires forall q :: q in r <==> q == p || q in s
    ensures Distinct(r)
  {
    var elems := set q | q in s;
    assert |elems| == |s| by { DistinctCard(s); }
    var relems := set q | q in r;
    assert relems == elems + {p};
    if !Distinct(r) {
      var i, j :| 0 <= i < j < |r| && r[i] == r[j];
      var without := r[..j] + r[j + 1..];
      assert relems == set q | q in without by {
        forall q | q in r ensures q in without {
          if q == r[j] { assert without[i] == r[i]; }
          else {
            var k :| 0 <= k < |r| && r[k] == q;
            if k < j { assert without[k] == q; } else { assert without[k - 1] == q; }
          }
        }
      }
      SetCardAtMostLength(without);
      assert false;
    }
  }

  lemma {:induction false} DistinctCard<T>(s: seq<T>)
    requires Distinct(s)
    ensures |set q | q in s| == |s|
  {
    if s != [] {
      var t := s[..|s| - 1];
      assert Distinct(t);
      DistinctCard(t);
      assert (set q | q in s) == (set q | q in t) + {s[|s| - 1]} by {
        assert s == t + [s[|s| - 1]];
      }
    } else {
      assert (set q | q in s) == {};
    }
  }

  lemma {:induction false} SetCardAtMostLength<T>(s: seq<T>)
    ensures |set q | q in s| <= |s|
  {
    if s != [] {
      var t := s[..|s| - 1];
      SetCardAtMostLength(t);
      assert (set q | q in s) == (set q | q in t) + {s[|s| - 1]} by {
        assert s == t + [s[|s| - 1]];
      }
    } else {
      assert (set q | q in s) == {};
    }
  }

  /** all_periods: the distinct known periods, sorted by date. */
  function TablePeriods(rs: seq<Record>): seq<Json> {
    SortPeriods(DistinctPeriods(rs))
  }

  /** The columns hold each distinct known period once, and in date order. */
  lemma TablePeriodsSpec(rs: seq<Record>)
    ensures Distinct(TablePeriods(rs)) && Sorted(TablePeriods(rs))
    ensures forall p :: p in TablePeriods(rs) <==> p != Unknown && HasPeriod(rs, p)
  {
  }

  /** When every known period is written MM/YYYY, the columns are strictly ascending by date. */
  lemma CanonicalPeriodsAscending(rs: seq<Record>, i: int, j: int)
    requires forall k :: 0 <= k < |rs| && rs[k].period != Unknown ==>
               rs[k].period.JString? && Periods.IsCanonical(rs[k].period.s)
    requires 0 <= i < j < |TablePeriods(rs)|
    ensures PeriodKey(TablePeriods(rs)[i]).Some? && PeriodKey(TablePeriods(rs)[j]).Some?
    ensures PeriodKey(TablePeriods(rs)[i]).value < PeriodKey(TablePeriods(rs)[j]).value
  {
    var ps := TablePeriods(rs);
    TablePeriodsSpec(rs);
    var a, b := ps[i], ps[j];
    assert a in ps && b in ps;
    assert a.JString? && Periods.IsCanonical(a.s);
    assert b.JString? && Periods.IsCanonical(b.s);
    assert SortsBefore(a, b);
    if PeriodKey(a).value == PeriodKey(b).value {
      Periods.CanonicalKeyInjective(a.s, b.s);
      assert false;
    }
  }

  /** No known period: no period column. */
  lemma AllUnknownNoPeriods(rs: seq<Record>)
    requires forall k :: 0 <= k < |rs| ==> rs[k].period == Unknown
    ensures TablePeriods(rs) == []
  {
    assert DistinctPeriods(rs) == [];
  }

  // ---------------------------------------------------------------------
  // Filling the table

  datatype Column = Column(header: Json, cells: seq<Json>)

  const DataPointName: string := "Data Point Name"

  /** The frame's first column: the six metric names. */
  const NameColumn: Column :=
    Column(JString(DataPointName), [JString("Revenue"), JString("COGS"), JString("Gross Profit"),
      JString("Operating Expenses"), JString("Operating Income"), JString("Net Income")])

  /** The first record, in processing order, that carries period `p`. */
  function FirstWithPeriod(rs: seq<Record>, p: Json): (r: Option<nat>)
    ensures r.Some? ==> r.value < |rs| && rs[r.value].period == p
                        && forall h :: 0 <= h < r.value ==> rs[h].period != p
    ensures r.None? ==> !HasPeriod(rs, p)
  {
    if rs == [] then None
    else if rs[0].period == p then Some(0)
    else
      match FirstWithPeriod(rs[1..], p)
      case None => None
      case Some(i) => Some(i + 1)
  }

  /** `matching_entry["data"].get(metric, "")`. */
  function Lookup(data: map<string, Json>, metric: string): Json {
    if metric in data then data[metric] else JString("")
  }

  /** period_values for period `p`. */
  function CellsFor(rs: seq<Record>, p: Json): (cells: seq<Json>)
    ensures |cells| == |TargetMetrics|
  {
    match FirstWithPeriod(rs, p)
    case None => seq(|TargetMetrics|, k => JString(""))
    case Some(i) =>
      seq(|TargetMetrics|, k requires 0 <= k < |TargetMetrics| => Lookup(rs[i].data, TargetMetrics[k]))
  }

  function IndexOfHeader(frame: seq<Column>, header: Json): (r: Option<nat>)
    ensures r.Some? ==> r.value < |frame| && frame[r.value].header == header
    ensures r.None? ==> forall k :: 0 <= k < |frame| ==> frame[k].header != header
  {
    if frame == [] then None
    else if frame[0].header == header then Some(0)
    else match IndexOfHeader(frame[1..], header)
      case None => None
      case Some(i) => Some(i + 1)
  }

  /** `final_df[header] = cells`: an existing column of that header is replaced in place, otherwise one is appended. */
  function SetColumn(frame: seq<Column>, c: Column): (r: seq<Column>)
    ensures (forall k :: 0 <= k < |frame| ==> frame[k].header != c.header) ==> r == frame + [c]
  {
    match IndexOfHeader(frame, c.header)
    case None => frame + [c]
    case Some(i) => frame[i := c]
  }

  function Fill(frame: seq<Column>, rs: seq<Record>, ps: seq<Json>): seq<Column>
    decreases |ps|
  {
    if ps == [] then frame
    else Fill(SetColumn(frame, Column(ps[0], CellsFor(rs, ps[0]))), rs, ps[1..])
  }

  /** final_df for a company's records. */
  function Table(rs: seq<Record>): seq<Column> {
    Fill([NameColumn], rs, TablePeriods(rs))
  }

  /** One column per period of `ps`, in order, each holding that period's cells. */
  function PeriodColumns(rs: seq<Record>, ps: seq<Json>): (cols: seq<Column>)
    ensures |cols| == |ps|
    ensures forall j :: 0 <= j < |ps| ==> cols[j] == Column(ps[j], CellsFor(rs, ps[j]))
  {
    if ps == [] then [] else [Column(ps[0], CellsFor(rs, ps[0]))] + PeriodColumns(rs, ps[1..])
  }

  /** Periods that are new labels are appended as columns, one per period, in order. */
  lemma {:induction false} FillAppends(frame: seq<Column>, rs: seq<Record>, ps: seq<Json>)
    requires Distinct(ps)
    requires forall k, j :: 0 <= k < |frame| && 0 <= j < |ps| ==> frame[k].header != ps[j]
    ensures Fill(frame, rs, ps) == frame + PeriodColumns(rs, ps)
    decreases |ps|
  {
    if ps != [] {
      var c := Column(ps[0], CellsFor(rs, ps[0]));
      assert SetColumn(frame, c) == frame + [c] by {
        assert forall k :: 0 <= k < |frame| ==> frame[k].header != c.header;
      }
      var f' := frame + [c];
      assert forall k, j :: 0 <= k < |f'| && 0 <= j < |ps[1..]| ==> f'[k].header != ps[1..][j] by {
        forall k, j | 0 <= k < |f'| && 0 <= j < |ps[1..]| ensures f'[k].header != ps[1..][j] {
          assert ps[1..][j] == ps[j + 1];
          if k == |frame| {
            assert f'[k].header == ps[0];
          }
        }
      }
      FillAppends(f', rs, ps[1..]);
      AppendAssociative(frame, [c], PeriodColumns(rs, ps[1..]));
    }
  }

  lemma AppendAssociative<T>(a: seq<T>, b: seq<T>, c: seq<T>)
    ensures a + (b + c) == (a + b) + c
  {
  }

  /**
   * The table is the name column (the six target metrics, in order) followed
   * by one column per sorted period; no period is spelled like the name
   * column's header here, which would overwrite it instead.
   */
  lemma TableShape(rs: seq<Record>)
    requires forall k :: 0 <= k < |rs| ==> rs[k].period != JString(DataPointName)
    ensures |Table(rs)| == 1 + |TablePeriods(rs)|
    ensures Table(rs)[0] == NameColumn
    ensures forall j :: 0 <= j < |TablePeriods(rs)| ==>
              Table(rs)[1 + j] == Column(TablePeriods(rs)[j], CellsFor(rs, TablePeriods(rs)[j]))
  {
    var ps := TablePeriods(rs);
    TablePeriodsSpec(rs);
    assert forall j :: 0 <= j < |ps| ==> ps[j] != JString(DataPointName) by {
      forall j | 0 <= j < |ps| ensures ps[j] != JString(DataPointName) {
        assert ps[j] in ps;
      }
    }
    FillAppends([NameColumn], rs, ps);
  }

  /**
   * Cell (metric k, period column j) is the metric's value in the first
   * record with that period, or "" when that record lacks the metric.
   */
  lemma TableCell(rs: seq<Record>, j: int, k: int, i: int)
    requires forall h :: 0 <= h < |rs| ==> rs[h].period != JString(DataPointName)
    requires 0 <= j < |TablePeriods(rs)| && 0 <= k < |TargetMetrics|
    requires 0 <= i < |rs| && rs[i].period == TablePeriods(rs)[j]
    requires forall h :: 0 <= h < i ==> rs[h].period != rs[i].period
    ensures |Table(rs)| == 1 + |TablePeriods(rs)|
    ensures Table(rs)[1 + j] == Column(rs[i].period, CellsFor(rs, rs[i].period))
    ensures Table(rs)[1 + j].cells[k] ==
            if TargetMetrics[k] in rs[i].data then rs[i].data[TargetMetrics[k]] else JString("")
  {
    TableShape(rs);
    var ps := TablePeriods(rs);
    assert Table(rs)[1 + j] == Column(ps[j], CellsFor(rs, ps[j]));
    FirstWithPeriodAt(rs, i);
    CellsOfFirst(rs, i, k);
  }

  lemma FirstWithPeriodAt(rs: seq<Record>, i: int)
    requires 0 <= i < |rs|
    requires forall h :: 0 <= h < i ==> rs[h].period != rs[i].period
    ensures FirstWithPeriod(rs, rs[i].period) == Some(i)
  {
  }

  lemma CellsOfFirst(rs: seq<Record>, i: int, k: int)
    requires 0 <= i < |rs| && 0 <= k < |TargetMetrics|
    requires FirstWithPeriod(rs, rs[i].period) == Some(i)
    ensures CellsFor(rs, rs[i].period)[k] == Lookup(rs[i].data, TargetMetrics[k])
  {
  }

  /** Later records with a period already seen leave its cells unchanged. */
  lemma {:induction false} FirstRecordWins(rs: seq<Record>, later: seq<Record>, p: Json)
    requires HasPeriod(rs, p)
    ensures CellsFor(rs + later, p) == CellsFor(rs, p)
  {
    var i := FirstWithPeriod(rs, p).value;
    assert (rs + later)[i] == rs[i];
    assert FirstWithPeriod(rs + later, p) == Some(i);
  }

  /** The loop that grows final_df one column per period. */
  method AssembleTable(rs: seq<Record>) returns (frame: seq<Column>)
    ensures frame == Table(rs)
  {
    var periods := TablePeriods(rs);
    frame := [NameColumn];
    for i := 0 to |periods|
      invariant Fill(frame, rs, periods[i..]) == Table(rs)
    {
      assert periods[i..][1..] == periods[i + 1..];
      var periodValues := CellsFor(rs, periods[i]);
      frame := SetColumn(frame, Column(periods[i], periodValues));
    }
  }

  // ---------------------------------------------------------------------
  // The companies, and the handler around them

  /**
   * The period step raises: `Counter` and the set comprehension hash every
   * period, which fails for an array or object; and `sorted` compares the
   * keys, where `extract_date(None)` is None, which does not compare with
   * the key of any other period.
   */
  predicate PeriodsRaise(rs: seq<Record>) {
    (exists k :: 0 <= k < |rs| && rs[k].period.JContainer?)
    || (HasPeriod(rs, JNull) && exists k :: 0 <= k < |rs| && rs[k].period != JNull && rs[k].period != Unknown)
  }

  /** The table a company's loop body saves; None when the body raises (no listing, or the period step). */
  function CompanyTable(listing: Option<seq<PdfReply>>, parse: string -> Option<Dict>): (r: Option<seq<Column>>)
    ensures r.None? <==> listing.None? || PeriodsRaise(Records(listing.value, parse))
    ensures r.Some? ==> r.value == Table(Records(listing.value, parse))
  {
    if listing.None? then None
    else
      var rs := Records(listing.value, parse);
      if PeriodsRaise(rs) then None else Some(Table(rs))
  }

  /** The results of `f` on `xs`, in order, up to the first element it fails on. */
  function SuccessPrefix<X, Y>(xs: seq<X>, f: X -> Option<Y>): (ys: seq<Y>)
    ensures |ys| <= |xs|
    ensures forall c :: 0 <= c < |ys| ==> f(xs[c]) == Some(ys[c])
    ensures |ys| < |xs| ==> f(xs[|ys|]).None?
  {
    if xs == [] then []
    else
      match f(xs[0])
      case None => []
      case Some(y) =>
        var rest := SuccessPrefix(xs[1..], f);
        assert forall c :: 1 <= c < 1 + |rest| ==> xs[c] == xs[1..][c - 1];
        [y] + rest
  }

  /** The three clauses of SuccessPrefix determine it. */
  lemma {:induction false} SuccessPrefixUnique<X, Y>(xs: seq<X>, f: X -> Option<Y>, ys: seq<Y>)
    requires |ys| <= |xs|
    requires forall c :: 0 <= c < |ys| ==> f(xs[c]) == Some(ys[c])
    requires |ys| < |xs| ==> f(xs[|ys|]).None?
    ensures ys == SuccessPrefix(xs, f)
  {
    if xs != [] && ys != [] {
      assert f(xs[0]) == Some(ys[0]);
      assert forall c :: 0 <= c < |ys[1..]| ==> xs[1..][c] == xs[c + 1] && ys[1..][c] == ys[c + 1];
      SuccessPrefixUnique(xs[1..], f, ys[1..]);
      assert ys == [ys[0]] + ys[1..];
    }
  }

  /** The tables saved, in configuration order, up to the first company whose body raises. */
  function Written(cs: seq<Option<seq<PdfReply>>>, parse: string -> Option<Dict>): (ts: seq<seq<Column>>)
    ensures |ts| <= |cs|
    ensures forall c :: 0 <= c < |ts| ==> CompanyTable(cs[c], parse) == Some(ts[c])
    ensures |ts| < |cs| ==> CompanyTable(cs[|ts|], parse).None?
  {
    SuccessPrefix(cs, l => CompanyTable(l, parse))
  }

  /** The three clauses of Written determine the saved tables. */
  lemma WrittenUnique(cs: seq<Option<seq<PdfReply>>>, parse: string -> Option<Dict>, ts: seq<seq<Column>>)
    requires |ts| <= |cs|
    requires forall c :: 0 <= c < |ts| ==> CompanyTable(cs[c], parse) == Some(ts[c])
    requires |ts| < |cs| ==> CompanyTable(cs[|ts|], parse).None?
    ensures ts == Written(cs, parse)
  {
    SuccessPrefixUnique(cs, l => CompanyTable(l, parse), ts);
  }

  const SuccessMessage: string := "Succesful"
  const DatasetErrorPrefix: string := "Error in Dataset creation: "

  /** What create_dataset returns, with `error` the text of the exception the handler catches. */
  function DatasetMessage(cs: seq<Option<seq<PdfReply>>>, parse: string -> Option<Dict>, error: string): string {
    if |Written(cs, parse)| == |cs| then SuccessMessage else DatasetErrorPrefix + error
  }

  /** When no company's body raises, every company's table is saved and the call succeeds. */
  lemma AllTablesWritten(cs: seq<Option<seq<PdfReply>>>, parse: string -> Option<Dict>, error: string)
    requires forall c :: 0 <= c < |cs| ==> cs[c].Some? && !PeriodsRaise(Records(cs[c].value, parse))
    ensures |Written(cs, parse)| == |cs|
    ensures forall c :: 0 <= c < |cs| ==> Written(cs, parse)[c] == Table(Records(cs[c].value, parse))
    ensures DatasetMessage(cs, parse, error) == SuccessMessage
  {
  }

  /** The first company whose body raises ends the call: nothing after it is saved, whatever follows. */
  lemma {:induction false} FailureDiscardsLater(cs: seq<Option<seq<PdfReply>>>, more: seq<Option<seq<PdfReply>>>,
                                                parse: string -> Option<Dict>, error: string)
    requires |Written(cs, parse)| < |cs|
    ensures Written(cs + more, parse) == Written(cs, parse)
    ensures DatasetMessage(cs + more, parse, error) == DatasetErrorPrefix + error
  {
    var ts := Written(cs, parse);
    assert forall c :: 0 <= c < |cs| ==> (cs + more)[c] == cs[c];
    WrittenUnique(cs + more, parse, ts);
  }

  /** A company without its directory (os.listdir raises) saves no table, and later companies none either. */
  lemma MissingDirectoryStops(cs: seq<Option<seq<PdfReply>>>, parse: string -> Option<Dict>, error: string, c: int)
    requires 0 <= c < |cs| && cs[c].None?
    requires forall d :: 0 <= d < c ==> cs[d].Some? && !PeriodsRaise(Records(cs[d].value, parse))
    ensures |Written(cs, parse)| == c
    ensures DatasetMessage(cs, parse, error) == DatasetErrorPrefix + error
  {
    assert CompanyTable(cs[c], parse).None?;
    assert forall d :: 0 <= d < c ==> CompanyTable(cs[d], parse).Some?;
  }

  /** A null period beside another known period makes the sort raise. */
  lemma NullBesideDatedPeriodRaises(rs: seq<Record>, i: int, j: int)
    requires 0 <= i < |rs| && 0 <= j < |rs|
    requires rs[i].period == JNull && rs[j].period.JString? && Periods.Parse(rs[j].period.s).Some?
    ensures PeriodsRaise(rs)
  {
    assert HasPeriod(rs, JNull);
    assert rs[j].period != Unknown by {
      assert Periods.Parse(Unknown.s).None? by {
        assert |Unknown.s| == 7;
        assert Unknown.s[2] != '/';
      }
    }
  }

  /** A single null period is harmless: it becomes the one period column. */
  lemma SingleNullPeriodIsAColumn(rs: seq<Record>)
    requires forall k :: 0 <= k < |rs| ==> rs[k].period == JNull || rs[k].period == Unknown
    requires HasPeriod(rs, JNull)
    ensures !PeriodsRaise(rs)
    ensures TablePeriods(rs) == [JNull]
  {
    var ps := TablePeriods(rs);
    TablePeriodsSpec(rs);
    assert JNull in ps;
    assert forall p :: p in ps ==> p == JNull by {
      forall p | p in ps ensures p == JNull {
        var k :| 0 <= k < |rs| && rs[k].period == p;
      }
    }
    OnlyElement(ps, JNull);
  }

  lemma OnlyElement<T>(s: seq<T>, x: T)
    requires Distinct(s) && x in s && forall p :: p in s ==> p == x
    ensures s == [x]
  {
    DistinctCard(s);
    assert (set q | q in s) == {x};
    assert s[0] in s;
  }

  /**
   * create_dataset: the loop over the configured companies (a listing is
   * None when os.listdir raises), under the handler that turns any exception
   * into the error message; the tables saved before it stay saved.
   */
  method CreateDataset(companies: seq<Option<seq<PdfReply>>>, parse: string -> Option<Dict>, error: string)
    returns (tables: seq<seq<Column>>, message: string)
    ensures tables == Written(companies, parse)
    ensures message == DatasetMessage(companies, parse, error)
  {
    tables := [];
    for c := 0 to |companies|
      invariant |tables| == c
      invariant forall d :: 0 <= d < c ==> CompanyTable(companies[d], parse) == Some(tables[d])
    {
      if companies[c].None? {
        WrittenUnique(companies, parse, tables);
        message := DatasetErrorPrefix + error;
        return;
      }
      var fileData := ExtractRecords(companies[c].value, parse);
      if PeriodsRaise(fileData) {
        WrittenUnique(companies, parse, tables);
        message := DatasetErrorPrefix + error;
        return;
      }
      var finalDf := AssembleTable(fileData);
      tables := tables + [finalDf];
    }
    WrittenUnique(companies, parse, tables);
    message := SuccessMessage;
  }
}
