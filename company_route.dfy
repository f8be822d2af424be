/**
 * The company endpoint (company_process): which company page is scraped
 * for a requested name, and what the endpoint answers.
 *
 * The scrape is a parameter: what `web_scrape(url)` does when it is awaited,
 * either returning its message or raising with some text.
 */
module CompanyRoute {
  import opened Wrappers
  import opened Strings
  import opened Config

  /** The outcome of awaiting web_scrape. */
  datatype ScrapeOutcome = Returned(message: string) | Raised(error: string)

  /** The endpoint's answer: a CompanyData body, or an HTTPException. */
  datatype Response = CompanyData(name: string) | HttpError(status: int, detail: string)

  const DippedReply: string := "Scrape Completed: Dipped Products PLC"
  const RichardReply: string := "Scrape Completed: Richard Pieris Exports PLC"
  const InvalidReply: string := "Invalid Company name"

  /** The url scraped for a name and the body returned after it, or None when no company is selected. */
  function Selection(name: string): (r: Option<(string, string)>)
    ensures Contains(Lower(name), "dipped") ==> r == Some((DippedPlcUrl, DippedReply))
    ensures !Contains(Lower(name), "dipped") && Contains(Lower(name), "richard") ==> r == Some((RichardPlcUrl, RichardReply))
    ensures r.None? <==> !Contains(Lower(name), "dipped") && !Contains(Lower(name), "richard")
  {
    var lowered := Lower(name);
    if Contains(lowered, "dipped") then Some((DippedPlcUrl, DippedReply))
    else if Contains(lowered, "richard") then Some((RichardPlcUrl, RichardReply))
    else None
  }

  /** company_process: the page scraped (if any) and the response. */
  function CompanyProcess(name: string, scrape: string -> ScrapeOutcome): (r: (Option<string>, Response))
    ensures r.0 == (if Selection(name).Some? then Some(Selection(name).value.0) else None)
  {
    match Selection(name)
    case None => (None, CompanyData(InvalidReply))
    case Some((url, reply)) =>
      match scrape(url)
      case Returned(_) => (Some(url), CompanyData(reply))
      case Raised(e) => (Some(url), HttpError(500, e))
  }

  /** A name mentioning both companies selects Dipped Products: the "dipped" test is first. */
  lemma DippedTakesPrecedence(name: string)
    requires Contains(Lower(name), "dipped") && Contains(Lower(name), "richard")
    ensures Selection(name) == Some((DippedPlcUrl, DippedReply))
  {
  }

  /** The test ignores letter case: "Dipped Products PLC" selects Dipped Products. */
  lemma DippedIgnoresCase()
    ensures Selection("Dipped Products PLC").Some?
    ensures Selection("Dipped Products PLC").value.0 == DippedPlcUrl
  {
    var lowered := Lower("Dipped Products PLC");
    assert lowered[0..6] == "dipped";
    assert OccursAt(lowered, "dipped", 0);
  }

  /** Lower-casing a name that contains `word` yields a string containing the lower-cased word. */
  lemma LowerKeepsMention(pre: string, word: string, post: string)
    ensures Contains(Lower(pre + word + post), Lower(word))
  {
    var name := pre + word + post;
    var lowered := Lower(name);
    var i := |pre|;
    assert lowered[i..i + |word|] == Lower(word) by {
      forall k | 0 <= k < |word|
        ensures lowered[i..i + |word|][k] == Lower(word)[k]
      {
        assert name[i + k] == word[k];
      }
    }
    assert OccursAt(lowered, Lower(word), i);
  }

  /** Any name with "dipped", written in any case, somewhere in it selects Dipped Products. */
  lemma DippedMentionSelects(pre: string, word: string, post: string)
    requires Lower(word) == "dipped"
    ensures Selection(pre + word + post) == Some((DippedPlcUrl, DippedReply))
  {
    LowerKeepsMention(pre, word, post);
  }

  /** A name with "richard" in any case, and no "dipped", selects Richard Pieris Exports. */
  lemma RichardMentionSelects(pre: string, word: string, post: string)
    requires Lower(word) == "richard"
    requires !Contains(Lower(pre + word + post), "dipped")
    ensures Selection(pre + word + post) == Some((RichardPlcUrl, RichardReply))
  {
    LowerKeepsMention(pre, word, post);
  }

  /** A name mentioning neither company scrapes nothing and is answered 'Invalid Company name'. */
  lemma InvalidNameScrapesNothing(name: string, scrape: string -> ScrapeOutcome)
    requires !Contains(Lower(name), "dipped") && !Contains(Lower(name), "richard")
    ensures CompanyProcess(name, scrape) == (None, CompanyData(InvalidReply))
  {
  }

  /**
   * The body does not depend on what the scrape returned: the error message
   * web_scrape returns from its own handler still yields "Scrape Completed".
   */
  lemma ResponseIgnoresScrapeMessage(name: string, s1: string -> ScrapeOutcome, s2: string -> ScrapeOutcome)
    requires Selection(name).Some?
    requires s1(Selection(name).value.0).Returned? && s2(Selection(name).value.0).Returned?
    ensures CompanyProcess(name, s1) == CompanyProcess(name, s2)
    ensures CompanyProcess(name, s1).1 == CompanyData(Selection(name).value.1)
  {
  }

  /** Only an exception escaping web_scrape turns into an HTTP 500 carrying its text. */
  lemma RaisedScrapeIsServerError(name: string, scrape: string -> ScrapeOutcome)
    requires Selection(name).Some? && scrape(Selection(name).value.0).Raised?
    ensures CompanyProcess(name, scrape).1 == HttpError(500, scrape(Selection(name).value.0).error)
  {
  }
}
