/**
 * The scraper's bookkeeping (the web_scrape service): the ticker read off
 * the company-profile URL, the report links collected from the financials
 * table, the directory the reports are saved in and the names they are
 * saved under, and the message returned.
 *
 * The browser is not modelled: the table is given by what looking up the
 * link of each row yields, and `fetch(url)` stands for downloading a report
 * and writing it out (None when either raises).
 */
module WebScrape {
  import opened Wrappers
  import opened Strings
  import opened Config

  // ---------------------------------------------------------------------
  // The ticker: `re.search(r"symbol=([A-Z]+)\.N0000", url)`

  predicate IsUpper(c: char) {
    'A' <= c <= 'Z'
  }

  /** The length of the run of capital letters starting at `i`. */
  function UpperRun(s: string, i: nat): (n: nat)
    requires i <= |s|
    ensures i + n <= |s|
    ensures forall k :: i <= k < i + n ==> IsUpper(s[k])
    ensures i + n < |s| ==> !IsUpper(s[i + n])
    decreases |s| - i
  {
    if i < |s| && IsUpper(s[i]) then 1 + UpperRun(s, i + 1) else 0
  }

  const SymbolKey: string := "symbol="
  const BoardSuffix: string := ".N0000"

  /**
   * The pattern matches at `p`. `[A-Z]+` cannot take the '.' that must
   * follow it, so the only run that can succeed is the longest one.
   */
  predicate MatchesAt(url: string, p: nat) {
    p + |SymbolKey| <= |url| && OccursAt(url, SymbolKey, p) && UpperRun(url, p + |SymbolKey|) > 0
    && OccursAt(url, BoardSuffix, p + |SymbolKey| + UpperRun(url, p + |SymbolKey|))
  }

  /** The leftmost match at or after `p`. */
  function MatchFrom(url: string, p: nat): (r: Option<nat>)
    ensures r.Some? ==> p <= r.value && MatchesAt(url, r.value)
                        && forall q :: p <= q < r.value ==> !MatchesAt(url, q)
    ensures r.None? ==> forall q :: p <= q ==> !MatchesAt(url, q)
    decreases |url| - p
  {
    if p + |SymbolKey| > |url| then None
    else if MatchesAt(url, p) then Some(p)
    else MatchFrom(url, p + 1)
  }

  const UnknownSymbol: string := "UNKNOWN"

  /** `match.group(1)` for a match at `p`: the capitals after "symbol=", which ".N0000" follows. */
  function SymbolAt(url: string, p: nat): (sym: string)
    requires MatchesAt(url, p)
    ensures sym != [] && forall k :: 0 <= k < |sym| ==> IsUpper(sym[k])
    ensures OccursAt(url, sym + BoardSuffix, p + |SymbolKey|)
  {
    var start := p + |SymbolKey|;
    var sym := url[start..start + UpperRun(url, start)];
    assert url[start..start + |sym| + |BoardSuffix|] == sym + BoardSuffix;
    sym
  }

  /** exact_company: the capital letters of the leftmost match, or "UNKNOWN" when there is none. */
  function ExtractSymbol(url: string): (sym: string)
    ensures (forall q :: !MatchesAt(url, q)) ==> sym == UnknownSymbol
    ensures (exists q :: MatchesAt(url, q)) ==>
              exists p: nat :: MatchesAt(url, p) && (forall q: nat :: q < p ==> !MatchesAt(url, q))
                               && sym == SymbolAt(url, p)
    ensures (exists q :: MatchesAt(url, q)) ==> sym != [] && forall k :: 0 <= k < |sym| ==> IsUpper(sym[k])
  {
    match MatchFrom(url, 0)
    case None => UnknownSymbol
    case Some(p) => SymbolAt(url, p)
  }

  /** Right after the page, `?symbol=S.N0000` matches, with S as its group. */
  lemma ProfileUrlMatches(page: string, sym: string)
    requires sym != [] && forall k :: 0 <= k < |sym| ==> IsUpper(sym[k])
    ensures MatchesAt(page + "?symbol=" + sym + BoardSuffix, |page| + 1)
    ensures SymbolAt(page + "?symbol=" + sym + BoardSuffix, |page| + 1) == sym
  {
    var url := page + "?symbol=" + sym + BoardSuffix;
    var p := |page| + 1;
    assert url[p..p + 7] == SymbolKey;
    assert url[p + 7 + |sym|] == '.';
    UpperRunIs(url, p + 7, |sym|);
    assert url[p + 7 + |sym|..p + 7 + |sym| + 6] == BoardSuffix;
    assert url[p + 7..p + 7 + |sym|] == sym;
  }

  /** No match starts inside an '='-free page followed by "?symbol": the '=' of the key is not there. */
  lemma NoMatchInPage(page: string, rest: string)
    requires forall k :: 0 <= k < |page| ==> page[k] != '='
    requires |rest| >= 7 && rest[..7] == "?symbol"
    ensures forall q: nat :: q <= |page| ==> !MatchesAt(page + rest, q)
  {
    var url := page + rest;
    forall k | 0 <= k < |url| && k <= |page| + 6 ensures url[k] != '=' {
      if k < |page| {
        assert url[k] == page[k];
      } else {
        assert url[k] == rest[..7][k - |page|];
      }
    }
    forall q: nat | q <= |page| ensures !MatchesAt(url, q) {
      if q + 7 <= |url| {
        assert url[q..q + 7][6] == url[q + 6];
      }
    }
  }

  /**
   * A page URL free of '=' followed by `?symbol=S.N0000`, for a run of
   * capitals S, yields S.
   */
  lemma SymbolOfProfileUrl(page: string, sym: string)
    requires forall k :: 0 <= k < |page| ==> page[k] != '='
    requires sym != [] && forall k :: 0 <= k < |sym| ==> IsUpper(sym[k])
    ensures ExtractSymbol(page + "?symbol=" + sym + BoardSuffix) == sym
  {
    var rest := "?symbol=" + sym + BoardSuffix;
    assert page + rest == page + "?symbol=" + sym + BoardSuffix;
    assert rest[..7] == "?symbol";
    ProfileUrlMatches(page, sym);
    NoMatchInPage(page, rest);
  }

  lemma UpperRunIs(s: string, i: nat, n: nat)
    requires i + n < |s|
    requires forall k :: i <= k < i + n ==> IsUpper(s[k])
    requires !IsUpper(s[i + n])
    ensures UpperRun(s, i) == n
  {
  }

  lemma CseProfilePageHasNoEquals()
    ensures forall k :: 0 <= k < |CseProfilePage| ==> CseProfilePage[k] != '='
  {
  }

  /** The two configured company URLs yield DIPD and REXP. */
  lemma ConfiguredSymbols()
    ensures ExtractSymbol(DippedPlcUrl) == "DIPD"
    ensures ExtractSymbol(RichardPlcUrl) == "REXP"
  {
    DippedSymbol();
    RichardSymbol();
  }

  lemma DippedSymbol()
    ensures ExtractSymbol(DippedPlcUrl) == "DIPD"
  {
    CseProfilePageHasNoEquals();
    SymbolOfProfileUrl(CseProfilePage, "DIPD");
  }

  lemma RichardSymbol()
    ensures ExtractSymbol(RichardPlcUrl) == "REXP"
  {
    CseProfilePageHasNoEquals();
    SymbolOfProfileUrl(CseProfilePage, "REXP");
  }

  /** A URL without the pattern gives "UNKNOWN". */
  lemma UnknownWithoutPattern(url: string)
    requires forall q :: !OccursAt(url, SymbolKey, q)
    ensures ExtractSymbol(url) == UnknownSymbol
  {
  }

  // ---------------------------------------------------------------------
  // The report links

  /** What looking up the first link of a table row yields: an exception, or the element's href attribute. */
  datatype RowLookup = NoElement | Anchor(href: Option<string>)

  /** `href and href.endswith(".pdf")`. */
  predicate IsPdfHref(r: RowLookup) {
    r.Anchor? && r.href.Some? && EndsWith(r.href.value, ".pdf")
  }

  /** The PDF hrefs of the given rows, in row order. */
  function Hrefs(rows: seq<RowLookup>): (r: seq<string>)
    ensures |r| <= |rows|
    ensures forall k :: 0 <= k < |r| ==> EndsWith(r[k], ".pdf")
    ensures |rows| == 1 ==> r == (if IsPdfHref(rows[0]) then [rows[0].href.value] else [])
  {
    if rows == [] then []
    else
      var last := rows[|rows| - 1];
      Hrefs(rows[..|rows| - 1]) + (if IsPdfHref(last) then [last.href.value] else [])
  }

  lemma {:induction false} HrefsAppend(a: seq<RowLookup>, b: seq<RowLookup>)
    ensures Hrefs(a + b) == Hrefs(a) + Hrefs(b)
  {
    if b == [] {
      assert a + b == a;
    } else {
      var b' := b[..|b| - 1];
      assert (a + b)[..|a + b| - 1] == a + b';
      assert (a + b)[|a + b| - 1] == b[|b| - 1];
      HrefsAppend(a, b');
    }
  }

  /** A string is collected iff some row's link is a PDF href with that text. */
  lemma {:induction false} HrefsMembers(rows: seq<RowLookup>, h: string)
    ensures h in Hrefs(rows) <==> exists k :: 0 <= k < |rows| && IsPdfHref(rows[k]) && rows[k].href.value == h
  {
    if rows != [] {
      var n := |rows| - 1;
      HrefsMembers(rows[..n], h);
      if exists k :: 0 <= k < n && IsPdfHref(rows[..n][k]) && rows[..n][k].href.value == h {
        var k :| 0 <= k < n && IsPdfHref(rows[..n][k]) && rows[..n][k].href.value == h;
        assert rows[k] == rows[..n][k];
      }
      if exists k :: 0 <= k < |rows| && IsPdfHref(rows[k]) && rows[k].href.value == h {
        var k :| 0 <= k < |rows| && IsPdfHref(rows[k]) && rows[k].href.value == h;
        if k < n {
          assert rows[..n][k] == rows[k];
        }
      }
    }
  }

  const RowsChecked: nat := 14
  const MaxLinks: nat := 12

  function Min(a: int, b: int): int {
    if a <= b then a else b
  }

  /**
   * pdf_links for the table `rows` (row i of the page is rows[i - 1]; a row
   * past the end fails its lookup): the first twelve PDF hrefs of rows 1 to 14.
   */
  function PdfLinks(rows: seq<RowLookup>): (links: seq<string>)
    ensures |links| <= MaxLinks
    ensures forall k :: 0 <= k < |links| ==> EndsWith(links[k], ".pdf")
    ensures var hrefs := Hrefs(rows[..Min(RowsChecked, |rows|)]);
            |links| == Min(MaxLinks, |hrefs|) && links <= hrefs
  {
    var hrefs := Hrefs(rows[..Min(RowsChecked, |rows|)]);
    if |hrefs| <= MaxLinks then hrefs else hrefs[..MaxLinks]
  }

  /** Rows after the fourteenth are never looked at. */
  lemma PdfLinksIgnoreLaterRows(rows: seq<RowLookup>, more: seq<RowLookup>)
    requires |rows| >= RowsChecked
    ensures PdfLinks(rows + more) == PdfLinks(rows)
  {
    assert (rows + more)[..RowsChecked] == rows[..RowsChecked];
  }

  /** With at most twelve PDF rows among at most fourteen, every one of them is collected. */
  lemma PdfLinksKeepAll(rows: seq<RowLookup>)
    requires |rows| <= RowsChecked && |Hrefs(rows)| <= MaxLinks
    ensures PdfLinks(rows) == Hrefs(rows)
  {
    assert rows[..|rows|] == rows;
  }

  /** The loop over rows 1 to 14 that stops once twelve links are held. */
  method CollectPdfLinks(rows: seq<RowLookup>) returns (pdfLinks: seq<string>)
    ensures pdfLinks == PdfLinks(rows)
  {
    var n := Min(RowsChecked, |rows|);
    pdfLinks := [];
    for i := 1 to RowsChecked + 1
      invariant pdfLinks == Hrefs(rows[..Min(i - 1, |rows|)])
      invariant |pdfLinks| < MaxLinks
    {
      if i > |rows| {
        continue;
      }
      assert rows[..i] == rows[..i - 1] + [rows[i - 1]];
      HrefsAppend(rows[..i - 1], [rows[i - 1]]);
      assert [rows[i - 1]][..0] == [];
      var link := rows[i - 1];
      if link.Anchor? {
        var href := link.href;
        if href.Some? && EndsWith(href.value, ".pdf") {
          pdfLinks := pdfLinks + [href.value];
        }
        if |pdfLinks| == MaxLinks {
          assert rows[..n] == rows[..i] + rows[i..n];
          HrefsAppend(rows[..i], rows[i..n]);
          return;
        }
      }
    }
    assert Min(RowsChecked, |rows|) == n;
  }

  // ---------------------------------------------------------------------
  // Where the reports are saved

  const ReportRoot: string := "data/unprocess_data"

  /** output_dir: a per-company directory for the two known tickers, the shared one otherwise. */
  function OutputDir(sym: string): string {
    if sym == "REXP" || sym == "DIPD" then ReportRoot + "/" + sym else ReportRoot
  }

  /** Reports scraped for a configured company land in the directory page selection reads. */
  lemma OutputDirIsInputDir()
    ensures forall c :: c in CompanyConfigs ==> OutputDir(c.symbol) == c.inputDir
  {
  }

  /** The saved name of the k-th link, k counted from 1. */
  function ReportName(sym: string, k: nat): string {
    "financial_report_" + sym + "_" + NatToString(k) + ".pdf"
  }

  function ReportPath(dir: string, sym: string, k: nat): string {
    dir + "/" + ReportName(sym, k)
  }

  /** Different links are saved under different names. */
  lemma ReportPathInjective(dir: string, sym: string, j: nat, k: nat)
    requires ReportPath(dir, sym, j) == ReportPath(dir, sym, k)
    ensures j == k
  {
    var pre := dir + "/" + "financial_report_" + sym + "_";
    assert ReportPath(dir, sym, j) == pre + (NatToString(j) + ".pdf");
    assert ReportPath(dir, sym, k) == pre + (NatToString(k) + ".pdf");
    var a, b := NatToString(j) + ".pdf", NatToString(k) + ".pdf";
    assert a == ReportPath(dir, sym, j)[|pre|..];
    assert b == ReportPath(dir, sym, k)[|pre|..];
    assert |NatToString(j)| == |NatToString(k)|;
    assert NatToString(j) == a[..|a| - 4];
    assert NatToString(k) == b[..|b| - 4];
    NatToStringInjective(j, k);
  }

  /** Every saved report is picked up as a PDF by page selection. */
  lemma ReportNameIsPdf(sym: string, k: nat)
    ensures IsPdfName(ReportName(sym, k))
  {
    var s := ReportName(sym, k);
    var l := Lower(s);
    assert s[|s| - 4..] == ".pdf";
    assert l[|l| - 4..] == ".pdf" by {
      forall i | 0 <= i < 4 ensures l[|l| - 4 + i] == ".pdf"[i] {
        assert s[|s| - 4 + i] == ".pdf"[i];
      }
    }
  }

  /** Every link before position n was downloaded and written. */
  predicate AllFetched(links: seq<string>, fetch: string -> Option<seq<bv8>>, n: int)
    requires n <= |links|
  {
    forall i :: 0 <= i < n ==> fetch(links[i]).Some?
  }

  /** The files on disk after the download loop over `links`: it stops at the first download or write that raises. */
  function Saved(dir: string, sym: string, links: seq<string>, fetch: string -> Option<seq<bv8>>): map<string, seq<bv8>> {
    if links == [] then map[]
    else
      var n := |links| - 1;
      var m := Saved(dir, sym, links[..n], fetch);
      if AllFetched(links, fetch, n + 1) then m[ReportPath(dir, sym, n + 1) := fetch(links[n]).value] else m
  }

  /** The k-th report holds what the k-th link served, for every link before the first failure. */
  lemma {:induction false} SavedAt(dir: string, sym: string, links: seq<string>, fetch: string -> Option<seq<bv8>>, i: nat)
    requires i < |links| && AllFetched(links, fetch, i + 1)
    ensures ReportPath(dir, sym, i + 1) in Saved(dir, sym, links, fetch)
    ensures Saved(dir, sym, links, fetch)[ReportPath(dir, sym, i + 1)] == fetch(links[i]).value
  {
    var n := |links| - 1;
    if i < n {
      var p := links[..n];
      assert p[i] == links[i];
      SavedAt(dir, sym, p, fetch, i);
      if ReportPath(dir, sym, i + 1) == ReportPath(dir, sym, n + 1) {
        ReportPathInjective(dir, sym, i + 1, n + 1);
      }
    }
  }

  /** Nothing but those reports is written. */
  lemma {:induction false} SavedOnly(dir: string, sym: string, links: seq<string>, fetch: string -> Option<seq<bv8>>, path: string)
    requires path in Saved(dir, sym, links, fetch)
    ensures exists k :: 1 <= k <= |links| && AllFetched(links, fetch, k) && path == ReportPath(dir, sym, k)
  {
    var n := |links| - 1;
    var p := links[..n];
    if path in Saved(dir, sym, p, fetch) {
      SavedOnly(dir, sym, p, fetch, path);
      var k :| 1 <= k <= |p| && AllFetched(p, fetch, k) && path == ReportPath(dir, sym, k);
      assert AllFetched(links, fetch, k);
    } else {
      assert AllFetched(links, fetch, n + 1) && path == ReportPath(dir, sym, n + 1);
    }
  }

  /** The download loop: `enumerate(pdf_links, start=1)`, saving the k-th link as the k-th report. */
  method SaveReports(dir: string, sym: string, links: seq<string>, fetch: string -> Option<seq<bv8>>)
    returns (saved: map<string, seq<bv8>>, ok: bool)
    ensures saved == Saved(dir, sym, links, fetch)
    ensures ok <==> AllFetched(links, fetch, |links|)
  {
    saved := map[];
    for i := 0 to |links|
      invariant saved == Saved(dir, sym, links[..i], fetch)
      invariant AllFetched(links, fetch, i)
    {
      assert links[..i + 1][..i] == links[..i];
      var response := fetch(links[i]);
      if response.None? {
        ok := false;
        FailureStopsSaving(dir, sym, links, fetch, i, i + 1);
        return;
      }
      saved := saved[ReportPath(dir, sym, i + 1) := response.value];
    }
    assert links[..|links|] == links;
    ok := true;
  }

  /** After a failed download, later links leave the files as they are. */
  lemma {:induction false} FailureStopsSaving(dir: string, sym: string, links: seq<string>, fetch: string -> Option<seq<bv8>>, f: nat, n: nat)
    requires f < n <= |links| && fetch(links[f]).None?
    requires Saved(dir, sym, links[..n - 1], fetch) == Saved(dir, sym, links[..f], fetch)
    ensures Saved(dir, sym, links, fetch) == Saved(dir, sym, links[..f], fetch)
    decreases |links| - n
  {
    assert links[..n][..n - 1] == links[..n - 1];
    assert links[..n][f] == links[f];
    assert !AllFetched(links[..n], fetch, n);
    assert Saved(dir, sym, links[..n], fetch) == Saved(dir, sym, links[..n - 1], fetch);
    if n < |links| {
      FailureStopsSaving(dir, sym, links, fetch, f, n + 1);
    } else {
      assert links[..n] == links;
    }
  }

  // ---------------------------------------------------------------------
  // The whole scrape

  /** What loading the page and waiting for the financials table yields: the table, or an exception. */
  datatype PageLoad = Loaded(rows: seq<RowLookup>) | LoadFailed

  const CompletedPrefix: string := "Web scrape completed for "
  const ErrorPrefix: string := "Error occured in web scraping: "

  /**
   * The returned message: completion with the ticker, or the handler's
   * message with the exception's text `error` when loading, a download or a
   * write raised.
   */
  function ScrapeMessage(url: string, load: PageLoad, fetch: string -> Option<seq<bv8>>, error: string): string {
    if load.LoadFailed? || !AllFetched(PdfLinks(load.rows), fetch, |PdfLinks(load.rows)|) then ErrorPrefix + error
    else CompletedPrefix + ExtractSymbol(url) + "."
  }

  /** The reports on disk after the scrape. */
  function ScrapeSaved(url: string, load: PageLoad, fetch: string -> Option<seq<bv8>>): map<string, seq<bv8>> {
    if load.LoadFailed? then map[]
    else
      var sym := ExtractSymbol(url);
      Saved(OutputDir(sym), sym, PdfLinks(load.rows), fetch)
  }

  /**
   * A scrape of a configured company whose downloads succeed reports
   * completion for its ticker and saves its k-th report, under the k-th
   * name, in the directory page selection reads for that company.
   */
  lemma ConfiguredScrape(c: CompanyConfig, url: string, rows: seq<RowLookup>, fetch: string -> Option<seq<bv8>>,
                         error: string, i: nat)
    requires c in CompanyConfigs && ExtractSymbol(url) == c.symbol
    requires AllFetched(PdfLinks(rows), fetch, |PdfLinks(rows)|) && i < |PdfLinks(rows)|
    ensures ScrapeMessage(url, Loaded(rows), fetch, error) == CompletedPrefix + c.symbol + "."
    ensures ReportPath(c.inputDir, c.symbol, i + 1) in ScrapeSaved(url, Loaded(rows), fetch)
    ensures ScrapeSaved(url, Loaded(rows), fetch)[ReportPath(c.inputDir, c.symbol, i + 1)] == fetch(PdfLinks(rows)[i]).value
  {
    OutputDirIsInputDir();
    SavedAt(c.inputDir, c.symbol, PdfLinks(rows), fetch, i);
  }

  /** web_scrape: the ticker, the links, the directory, the downloads and the message. */
  method Scrape(url: string, load: PageLoad, fetch: string -> Option<seq<bv8>>, error: string)
    returns (message: string, saved: map<string, seq<bv8>>)
    ensures message == ScrapeMessage(url, load, fetch, error)
    ensures saved == ScrapeSaved(url, load, fetch)
  {
    var exactCompany := ExtractSymbol(url);
    if load.LoadFailed? {
      return ErrorPrefix + error, map[];
    }
    var pdfLinks := CollectPdfLinks(load.rows);
    var outputDir := OutputDir(exactCompany);
    var ok;
    saved, ok := SaveReports(outputDir, exactCompany, pdfLinks, fetch);
    if !ok {
      return ErrorPrefix + error, saved;
    }
    message := CompletedPrefix + exactCompany + ".";
  }
}
