/**
 * Page selection (the data_extractor service): for every PDF of every
 * configured company, the first page whose text matches the company's
 * marker is saved on its own; when no page matches, the whole file is
 * copied. Each PDF's name is logged in exactly one of two lists.
 *
 * The PDF library and the regular-expression engine are not modelled: a
 * file is given by what opening it, reading its pages and writing into the
 * output directory yield, and `search(pattern, text)` stands for
 * `re.search(pattern, text, re.IGNORECASE)` being truthy.
 */
module ExtractData {
  import opened Wrappers
  import opened Strings
  import opened Config

  /** What loading page i and extracting its text yields: the text, or an exception. */
  datatype Page = Text(text: string) | Unreadable

  /**
   * One entry of the input directory: its name, whether `fitz.open`
   * succeeds, its pages, and whether saving into the output directory
   * (the one-page document or the copy) succeeds.
   */
  datatype PdfFile = PdfFile(name: string, opens: bool, pages: seq<Page>, writable: bool)

  /** How the page loop ends: a match at a page, no match, or an exception while reading a page. */
  datatype Scan = Match(index: nat) | NoMatch | PageError

  /** Every page in [lo, hi) was read and does not match. */
  predicate NoMatchBetween(pages: seq<Page>, regex: string, search: (string, string) -> bool, lo: int, hi: int)
    requires 0 <= lo && hi <= |pages|
  {
    forall k :: lo <= k < hi ==> pages[k].Text? && !search(regex, pages[k].text)
  }

  /** The page loop from page `i` on: it stops at the first page that matches or raises. */
  function ScanFrom(pages: seq<Page>, regex: string, search: (string, string) -> bool, i: nat): (r: Scan)
    requires i <= |pages|
    ensures r.Match? ==>
              i <= r.index < |pages| && pages[r.index].Text? && search(regex, pages[r.index].text)
              && NoMatchBetween(pages, regex, search, i, r.index)
    ensures r.NoMatch? <==> NoMatchBetween(pages, regex, search, i, |pages|)
    ensures r.PageError? ==>
              exists j :: i <= j < |pages| && pages[j].Unreadable? && NoMatchBetween(pages, regex, search, i, j)
    decreases |pages| - i
  {
    if i == |pages| then NoMatch
    else
      match pages[i]
      case Unreadable => PageError
      case Text(t) => if search(regex, t) then Match(i) else ScanFrom(pages, regex, search, i + 1)
  }

  function FirstMatch(pages: seq<Page>, regex: string, search: (string, string) -> bool): Scan {
    ScanFrom(pages, regex, search, 0)
  }

  /**
   * A matching page is selected exactly when one exists with every page
   * before it readable, and then it is the lowest such page.
   */
  lemma FirstMatchIsLowest(pages: seq<Page>, regex: string, search: (string, string) -> bool, j: nat)
    requires j < |pages| && pages[j].Text? && search(regex, pages[j].text)
    requires forall k :: 0 <= k < j ==> pages[k].Text?
    ensures FirstMatch(pages, regex, search).Match?
    ensures FirstMatch(pages, regex, search).index <= j
  {
  }

  /** The page loop of data_extractor: `for i in range(len(doc))` with `break` at the first match. */
  method ScanPages(pages: seq<Page>, regex: string, search: (string, string) -> bool) returns (r: Scan)
    ensures r == FirstMatch(pages, regex, search)
  {
    r := NoMatch;
    for i := 0 to |pages|
      invariant ScanFrom(pages, regex, search, i) == FirstMatch(pages, regex, search)
    {
      match pages[i]
      case Unreadable =>
        r := PageError;
        return;
      case Text(text) =>
        if search(regex, text) {
          r := Match(i);
          return;
        }
    }
  }

  /** What is written into the output directory under the file's own name. */
  datatype Output = SinglePage(page: nat) | WholeCopy

  /** Whether the name was logged as a success, and what was written for it. */
  datatype Outcome = Outcome(succeeded: bool, written: Option<Output>)

  /**
   * One PDF: opening or reading may raise (failed, nothing written); a match
   * saves that page alone (success); no match copies the file (failed); a
   * write that raises leaves the file failed with nothing written.
   */
  function FileOutcome(f: PdfFile, regex: string, search: (string, string) -> bool): (r: Outcome)
    ensures r.succeeded <==> f.opens && FirstMatch(f.pages, regex, search).Match? && f.writable
    ensures r.written.Some? ==> f.opens && f.writable
    ensures r.succeeded ==> r.written == Some(SinglePage(FirstMatch(f.pages, regex, search).index))
    ensures f.opens && f.writable && FirstMatch(f.pages, regex, search).NoMatch? ==> r.written == Some(WholeCopy)
    ensures FirstMatch(f.pages, regex, search).PageError? ==> r.written.None?
  {
    if !f.opens then Outcome(false, None)
    else
      match FirstMatch(f.pages, regex, search)
      case PageError => Outcome(false, None)
      case Match(i) => if f.writable then Outcome(true, Some(SinglePage(i))) else Outcome(false, None)
      case NoMatch => if f.writable then Outcome(false, Some(WholeCopy)) else Outcome(false, None)
  }

  /** The names of the listing that end in ".pdf" (ignoring case), in listing order. */
  function PdfNames(files: seq<PdfFile>): seq<string> {
    if files == [] then []
    else
      var f := files[|files| - 1];
      PdfNames(files[..|files| - 1]) + (if IsPdfName(f.name) then [f.name] else [])
  }

  /** success_pdfs after the loop over one company's listing. */
  function SuccessNames(files: seq<PdfFile>, regex: string, search: (string, string) -> bool): seq<string> {
    if files == [] then []
    else
      var f := files[|files| - 1];
      SuccessNames(files[..|files| - 1], regex, search)
      + (if IsPdfName(f.name) && FileOutcome(f, regex, search).succeeded then [f.name] else [])
  }

  /** failed_pdfs after the loop over one company's listing. */
  function FailedNames(files: seq<PdfFile>, regex: string, search: (string, string) -> bool): seq<string> {
    if files == [] then []
    else
      var f := files[|files| - 1];
      FailedNames(files[..|files| - 1], regex, search)
      + (if IsPdfName(f.name) && !FileOutcome(f, regex, search).succeeded then [f.name] else [])
  }

  /** The files written into the company's output directory, by name. */
  function Written(files: seq<PdfFile>, regex: string, search: (string, string) -> bool): map<string, Output> {
    if files == [] then map[]
    else
      var f := files[|files| - 1];
      var m := Written(files[..|files| - 1], regex, search);
      var o := FileOutcome(f, regex, search);
      if IsPdfName(f.name) && o.written.Some? then m[f.name := o.written.value] else m
  }

  /** Every PDF name lands in exactly one of the two lists, and no other name in either. */
  lemma {:induction false} ListsPartitionPdfNames(files: seq<PdfFile>, regex: string, search: (string, string) -> bool)
    ensures multiset(SuccessNames(files, regex, search)) + multiset(FailedNames(files, regex, search))
            == multiset(PdfNames(files))
  {
    if files != [] {
      ListsPartitionPdfNames(files[..|files| - 1], regex, search);
    }
  }

  /** Names not ending in ".pdf" are in neither list. */
  lemma {:induction false} ListsHoldOnlyPdfNames(files: seq<PdfFile>, regex: string, search: (string, string) -> bool)
    ensures forall n :: n in SuccessNames(files, regex, search) ==> IsPdfName(n)
    ensures forall n :: n in FailedNames(files, regex, search) ==> IsPdfName(n)
  {
    if files != [] {
      ListsHoldOnlyPdfNames(files[..|files| - 1], regex, search);
    }
  }

  /** Files are handled independently: an exception on one does not affect the files after it. */
  lemma {:induction false} ListsAppend(a: seq<PdfFile>, b: seq<PdfFile>, regex: string, search: (string, string) -> bool)
    ensures SuccessNames(a + b, regex, search) == SuccessNames(a, regex, search) + SuccessNames(b, regex, search)
    ensures FailedNames(a + b, regex, search) == FailedNames(a, regex, search) + FailedNames(b, regex, search)
  {
    if b == [] {
      assert a + b == a;
    } else {
      var b' := b[..|b| - 1];
      assert (a + b)[..|a + b| - 1] == a + b';
      assert (a + b)[|a + b| - 1] == b[|b| - 1];
      ListsAppend(a, b', regex, search);
    }
  }

  /** The try block for one PDF, with the `found` flag of the source. */
  method ProcessPdf(f: PdfFile, regex: string, search: (string, string) -> bool) returns (found: bool, written: Option<Output>)
    ensures Outcome(found, written) == FileOutcome(f, regex, search)
  {
    found := false;
    written := None;
    if !f.opens {
      return;
    }
    var scan := ScanPages(f.pages, regex, search);
    if scan.PageError? {
      return;
    }
    if scan.Match? {
      if !f.writable {
        return;
      }
      written := Some(SinglePage(scan.index));
      found := true;
    }
    if !found {
      if !f.writable {
        return;
      }
      written := Some(WholeCopy);
    }
  }

  /** The loop over one company's listing: success_pdfs, failed_pdfs and the files saved. */
  method ProcessCompany(files: seq<PdfFile>, regex: string, search: (string, string) -> bool)
    returns (successPdfs: seq<string>, failedPdfs: seq<string>, saved: map<string, Output>)
    ensures successPdfs == SuccessNames(files, regex, search)
    ensures failedPdfs == FailedNames(files, regex, search)
    ensures saved == Written(files, regex, search)
  {
    successPdfs, failedPdfs, saved := [], [], map[];
    for i := 0 to |files|
      invariant successPdfs == SuccessNames(files[..i], regex, search)
      invariant failedPdfs == FailedNames(files[..i], regex, search)
      invariant saved == Written(files[..i], regex, search)
    {
      assert files[..i + 1][..i] == files[..i];
      var f := files[i];
      if IsPdfName(f.name) {
        var found, written := ProcessPdf(f, regex, search);
        if written.Some? {
          saved := saved[f.name := written.value];
        }
        if found {
          successPdfs := successPdfs + [f.name];
        } else {
          failedPdfs := failedPdfs + [f.name];
        }
      }
    }
    assert files[..|files|] == files;
  }

  /**
   * One company as the outer loop meets it: its configuration and its
   * listing, None when `os.makedirs` on the output directory or
   * `os.listdir` on the input directory raises; either failure reaches the
   * outer handler.
   */
  datatype CompanyInput = CompanyInput(config: CompanyConfig, listing: Option<seq<PdfFile>>)

  /** The returned dictionary, or the error string of the outer handler. */
  datatype Extraction = Lists(successPdfs: seq<string>, failedPdfs: seq<string>) | ExtractorError

  /** data_extractor's result over the companies in configuration order. */
  function ExtractionOf(inputs: seq<CompanyInput>, search: (string, string) -> bool): Extraction {
    if inputs == [] then Lists([], [])
    else
      var c := inputs[|inputs| - 1];
      match ExtractionOf(inputs[..|inputs| - 1], search)
      case ExtractorError => ExtractorError
      case Lists(s, f) =>
        match c.listing
        case None => ExtractorError
        case Some(files) =>
          Lists(s + SuccessNames(files, c.config.keywordRegex, search),
                f + FailedNames(files, c.config.keywordRegex, search))
  }

  /** The output directories written, with their files, for the companies processed before any error. */
  function SavedOf(inputs: seq<CompanyInput>, search: (string, string) -> bool): seq<(string, map<string, Output>)> {
    if inputs == [] then []
    else
      var c := inputs[|inputs| - 1];
      var earlier := SavedOf(inputs[..|inputs| - 1], search);
      if ExtractionOf(inputs[..|inputs| - 1], search).ExtractorError? || c.listing.None? then earlier
      else earlier + [(c.config.outputDir, Written(c.listing.value, c.config.keywordRegex, search))]
  }

  /** All the PDF names of all listings, in order. */
  function AllPdfNames(inputs: seq<CompanyInput>): seq<string> {
    if inputs == [] then []
    else
      var c := inputs[|inputs| - 1];
      AllPdfNames(inputs[..|inputs| - 1]) + (if c.listing.Some? then PdfNames(c.listing.value) else [])
  }

  /** When every listing succeeds, every PDF name of every company is in exactly one returned list. */
  lemma {:induction false} ExtractionPartitions(inputs: seq<CompanyInput>, search: (string, string) -> bool)
    requires forall k :: 0 <= k < |inputs| ==> inputs[k].listing.Some?
    ensures ExtractionOf(inputs, search).Lists?
    ensures multiset(ExtractionOf(inputs, search).successPdfs) + multiset(ExtractionOf(inputs, search).failedPdfs)
            == multiset(AllPdfNames(inputs))
  {
    if inputs != [] {
      var c := inputs[|inputs| - 1];
      ExtractionPartitions(inputs[..|inputs| - 1], search);
      ListsPartitionPdfNames(c.listing.value, c.config.keywordRegex, search);
    }
  }

  /** An error listing any company's directory discards every list. */
  lemma {:induction false} ListingErrorDiscardsLists(inputs: seq<CompanyInput>, search: (string, string) -> bool, k: int)
    requires 0 <= k < |inputs| && inputs[k].listing.None?
    ensures ExtractionOf(inputs, search) == ExtractorError
  {
    if k < |inputs| - 1 {
      ListingErrorDiscardsLists(inputs[..|inputs| - 1], search, k);
    }
  }

  /** data_extractor: the outer loop over the companies, extending the overall lists. */
  method DataExtractor(inputs: seq<CompanyInput>, search: (string, string) -> bool)
    returns (result: Extraction, saved: seq<(string, map<string, Output>)>)
    ensures result == ExtractionOf(inputs, search)
    ensures saved == SavedOf(inputs, search)
  {
    var allSuccess, allFailed := [], [];
    saved := [];
    for c := 0 to |inputs|
      invariant ExtractionOf(inputs[..c], search) == Lists(allSuccess, allFailed)
      invariant saved == SavedOf(inputs[..c], search)
    {
      assert inputs[..c + 1][..c] == inputs[..c];
      var company := inputs[c];
      if company.listing.None? {
        result := ExtractorError;
        ErrorPersists(inputs, search, c + 1);
        SavedAfterError(inputs, search, c + 1);
        return;
      }
      var successPdfs, failedPdfs, written :=
        ProcessCompany(company.listing.value, company.config.keywordRegex, search);
      saved := saved + [(company.config.outputDir, written)];
      allSuccess := allSuccess + successPdfs;
      allFailed := allFailed + failedPdfs;
    }
    assert inputs[..|inputs|] == inputs;
    result := Lists(allSuccess, allFailed);
  }

  /** Once the outer handler has fired, later companies change nothing. */
  lemma {:induction false} ErrorPersists(inputs: seq<CompanyInput>, search: (string, string) -> bool, n: int)
    requires 0 <= n <= |inputs|
    requires ExtractionOf(inputs[..n], search) == ExtractorError
    ensures ExtractionOf(inputs, search) == ExtractorError
    decreases |inputs| - n
  {
    if n < |inputs| {
      assert inputs[..n + 1][..n] == inputs[..n];
      ErrorPersists(inputs, search, n + 1);
    } else {
      assert inputs[..n] == inputs;
    }
  }

  lemma {:induction false} SavedAfterError(inputs: seq<CompanyInput>, search: (string, string) -> bool, n: int)
    requires 0 <= n <= |inputs|
    requires ExtractionOf(inputs[..n], search) == ExtractorError
    ensures SavedOf(inputs, search) == SavedOf(inputs[..n], search)
    decreases |inputs| - n
  {
    if n < |inputs| {
      assert inputs[..n + 1][..n] == inputs[..n];
      SavedAfterError(inputs, search, n + 1);
    } else {
      assert inputs[..n] == inputs;
    }
  }
}
