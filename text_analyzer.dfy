/** The analysis session of `TextAnalyzer` (TextAnalyzer.cpp): the loaded
    policy text and where it came from, the last keyword report, and the
    operations that load, analyze, summarize and store. The keyword store,
    the file system and the summarization server are not modelled; what
    they answer is passed in: whether the store is reachable and what it
    returns, the file's contents if it could be opened, and the server's
    availability and reply. */
module TextAnalysis {
  import opened Strings
  import opened KeywordReport
  import opened KeywordMatching
  import opened LlmManager

  /** A stored policy as the store lists it (newest first). */
  datatype PolicyRecord = PolicyRecord(id: int, content: string, source: string, filename: string)

  /** A policy handed to the store by `storeCurrentPolicy`. */
  datatype PolicyWrite = PolicyWrite(content: string, source: string, filename: string)

  /** Analysis results handed to the store by `storeAnalysisResults`. */
  datatype AnalysisWrite = AnalysisWrite(policyId: int, keywordAnalysis: string, aiSummary: string)

  const ManualSource := "manual"
  const FileSource := "file"

  const NoTextError := ErrorTag + " No privacy policy text loaded. Please load text first."

  /** Printed before the keyword report when the server does not answer. */
  const UnavailableBanner :=
    "\n" + "  LLM Server Not Available\n"
    + "==========================\n"
    + "Ollama is not responding. Please ensure:\n"
    + "1. Ollama is running: 'ollama serve'\n"
    + "2. Server is accessible at http://localhost:11434\n\n"
    + "Using keyword analysis instead:\n"
    + "------------------------------------\n"

  /** Printed before the keyword report when the server's reply is an
      error. */
  const IssueBanner :=
    "\n" + "  LLM Generation Issue\n"
    + "======================\n"
    + "Failed to generate AI summary.\n\n"
    + "Using keyword analysis instead:\n"
    + "------------------------------------\n"

  const SummaryHeader :=
    "\n" + " AI-Powered Privacy Policy Summary (Based on Keyword Analysis)\n"
    + "==============================================================\n"
  const SummaryFooter :=
    "\n==============================================================\n"
    + "\nNote: This AI analysis is based on detected privacy-related keywords and should be verified by legal experts.\n"

  /** The string `generateSummary` returns, given the session's text and
      report, whether the availability probe succeeded, and what the
      summarization call returned. A reply counts as a failure when
      `find("Error:") == 0`. */
  function Summary(policyText: string, lastKeywordAnalysis: string, serverUp: bool, llmSummary: string): (r: string)
    ensures policyText == [] ==> r == NoTextError
  {
    if policyText == [] then NoTextError
    else if !serverUp then Framed(UnavailableBanner, lastKeywordAnalysis, "")
    else if FindFrom(llmSummary, ErrorTag, 0) == Some(0) then Framed(IssueBanner, lastKeywordAnalysis, "")
    else Framed(SummaryHeader, llmSummary, SummaryFooter)
  }

  /** Server unavailable: the banner, then the last keyword report verbatim. */
  lemma SummaryUnavailable(policyText: string, lastKeywordAnalysis: string, llmSummary: string)
    requires policyText != []
    ensures var r := Summary(policyText, lastKeywordAnalysis, false, llmSummary);
            StartsWith(r, UnavailableBanner) && EndsWith(r, lastKeywordAnalysis)
  {
  }

  /** A reply starting with `Error:`: the issue banner, then the last
      keyword report verbatim. */
  lemma SummaryIssue(policyText: string, lastKeywordAnalysis: string, llmSummary: string)
    requires policyText != [] && StartsWith(llmSummary, ErrorTag)
    ensures var r := Summary(policyText, lastKeywordAnalysis, true, llmSummary);
            StartsWith(r, IssueBanner) && EndsWith(r, lastKeywordAnalysis)
  {
    FoundAtZeroIffPrefix(llmSummary, ErrorTag);
  }

  /** Any other reply is shown verbatim between the header and the footer. */
  lemma SummaryFramed(policyText: string, lastKeywordAnalysis: string, llmSummary: string)
    requires policyText != [] && !StartsWith(llmSummary, ErrorTag)
    ensures var r := Summary(policyText, lastKeywordAnalysis, true, llmSummary);
            && StartsWith(r, SummaryHeader) && EndsWith(r, SummaryFooter)
            && |r| == |SummaryHeader| + |llmSummary| + |SummaryFooter|
            && r[|SummaryHeader|..|r| - |SummaryFooter|] == llmSummary
  {
    FoundAtZeroIffPrefix(llmSummary, ErrorTag);
  }

  /** `body` between a fixed head and tail. */
  function Framed(head: string, body: string, tail: string): (r: string)
    ensures StartsWith(r, head) && EndsWith(r, body + tail) && EndsWith(r, tail)
    ensures tail == [] ==> EndsWith(r, body)
    ensures |r| == |head| + |body| + |tail| && r[|head|..|r| - |tail|] == body
  {
    var r := head + (body + tail);
    assert body + [] == body;
    assert r[..|head|] == head;
    assert r[|r| - |body + tail|..] == body + tail;
    assert r[|r| - |tail|..] == tail;
    assert r[|head|..|r| - |tail|] == body;
    r
  }

  /** Only the "no text" answer starts with `Error:`: the fallbacks and the
      framed summary start with a line break, whatever the server said. */
  lemma SummaryErrorOnlyWithoutText(policyText: string, lastKeywordAnalysis: string, serverUp: bool, llmSummary: string)
    ensures StartsWith(Summary(policyText, lastKeywordAnalysis, serverUp, llmSummary), ErrorTag)
        <==> policyText == []
  {
    var r := Summary(policyText, lastKeywordAnalysis, serverUp, llmSummary);
    BannersLeadWithBreak();
    if policyText == [] {
      assert NoTextError[..|ErrorTag|] == ErrorTag;
    } else if !serverUp {
      SummaryUnavailable(policyText, lastKeywordAnalysis, llmSummary);
      NotErrorAfterBreak(r, UnavailableBanner);
    } else if StartsWith(llmSummary, ErrorTag) {
      SummaryIssue(policyText, lastKeywordAnalysis, llmSummary);
      NotErrorAfterBreak(r, IssueBanner);
    } else {
      SummaryFramed(policyText, lastKeywordAnalysis, llmSummary);
      NotErrorAfterBreak(r, SummaryHeader);
    }
  }

  /** A text that begins with a line break does not begin with `Error:`. */
  lemma NotErrorAfterBreak(r: string, head: string)
    requires StartsWith(r, head) && |head| > 0 && head[0] == '\n'
    ensures !StartsWith(r, ErrorTag)
  {
    assert r[0] == head[0];
    assert ErrorTag[0] == 'E';
  }

  /** The fallback banners and the summary header all begin with a line
      break. */
  lemma BannersLeadWithBreak()
    ensures UnavailableBanner[0] == '\n' && IssueBanner[0] == '\n' && SummaryHeader[0] == '\n'
  {
  }

  /** Whenever the summarization request fails, in any of the ways the
      manager reports, the user still gets the keyword report. */
  lemma FailedRequestFallsBack(policyText: string, lastKeywordAnalysis: string, curlReady: bool, ex: Exchange)
    requires policyText != [] && Failed(curlReady, ex)
    ensures EndsWith(Summary(policyText, lastKeywordAnalysis, true, Outcome(curlReady, ex)), lastKeywordAnalysis)
  {
    SummaryIssue(policyText, lastKeywordAnalysis, Outcome(curlReady, ex));
  }

  /** `getLastStoredPolicyId`: the id of the newest stored policy, or -1
      when none is stored. */
  function LatestPolicyId(policies: seq<PolicyRecord>): (id: int)
    ensures policies == [] ==> id == -1
    ensures policies != [] ==> id == policies[0].id
  {
    if |policies| == 0 then -1 else policies[0].id
  }

  class TextAnalyzer {
    var policyText: string
    var currentSource: string
    var currentFilename: string
    var lastKeywordAnalysis: string
    /** The keyword matcher the analyzer owns. */
    const matcher: KeywordMatcher
    /** The summarization client, built with its default address and model. */
    const llm: LlmClient

    ghost predicate Valid()
      reads this, matcher
    {
      matcher.Valid()
    }

    /** A new session: no text, no source, no report. */
    constructor()
      ensures Valid()
      ensures policyText == [] && currentSource == [] && currentFilename == [] && lastKeywordAnalysis == []
      ensures fresh(matcher) && matcher.keywordList == []
      ensures matcher.categoryCount == map[] && matcher.matchedKeywordsByCategory == map[]
      ensures llm.apiUrl == "http://localhost:11434" && llm.modelName == "gemma:2b"
    {
      policyText := "";
      currentSource := "";
      currentFilename := "";
      lastKeywordAnalysis := "";
      matcher := new KeywordMatcher();
      llm := new LlmClient("http://localhost:11434", "gemma:2b");
    }

    /** `loadText(text)`: the text is taken as typed in; the last report is
        kept. */
    method LoadText(text: string)
      modifies this
      ensures policyText == text && currentSource == ManualSource && currentFilename == []
      ensures lastKeywordAnalysis == old(lastKeywordAnalysis)
    {
      policyText := text;
      currentSource := ManualSource;
      currentFilename := "";
    }

    /** `loadFromFile(filename)`, where `contents` is what reading the file
        gave, or `None` when it could not be opened. */
    method LoadFromFile(filename: string, contents: Option<string>) returns (ok: bool)
      modifies this
      ensures ok <==> contents.Some?
      ensures !ok ==> policyText == old(policyText) && currentSource == old(currentSource)
                      && currentFilename == old(currentFilename)
      ensures ok ==> policyText == contents.value && currentSource == FileSource
                     && currentFilename == filename
      ensures lastKeywordAnalysis == old(lastKeywordAnalysis)
    {
      if contents.None? {
        return false;
      }
      policyText := contents.value;
      currentSource := FileSource;
      currentFilename := filename;
      return true;
    }

    /** `analyze()`. With text loaded and a non-empty dictionary fetched
        (`connected`, `fetched` are the store's answer), the report of the
        scan of the text becomes the last report; otherwise the last report
        is kept. */
    method Analyze(connected: bool, fetched: seq<KeywordEntry>)
      requires Valid() && WordTerms(fetched)
      modifies this, matcher
      ensures Valid()
      ensures policyText == old(policyText) && currentSource == old(currentSource)
              && currentFilename == old(currentFilename)
      ensures policyText == [] || !connected || fetched == [] ==>
                lastKeywordAnalysis == old(lastKeywordAnalysis)
      ensures policyText != [] && connected && fetched != [] ==>
                lastKeywordAnalysis == KeywordAnalysis(fetched, policyText)
      ensures matcher.keywordList == if policyText != [] && connected then fetched else old(matcher.keywordList)
      ensures policyText == [] || !connected || fetched == [] ==>
                matcher.categoryCount == old(matcher.categoryCount)
                && matcher.matchedKeywordsByCategory == old(matcher.matchedKeywordsByCategory)
      ensures policyText != [] && connected && fetched != [] ==>
                matcher.categoryCount == ScanCounts(fetched, policyText)
                && matcher.matchedKeywordsByCategory == ScanLists(fetched, policyText)
    {
      if policyText == [] {
        return;
      }
      var loaded := matcher.LoadKeywords(connected, fetched);
      if !loaded {
        return;
      }
      matcher.FindMatches(policyText);
      lastKeywordAnalysis := matcher.GetKeywordAnalysis();
    }

    /** `generateSummary()`. `serverUp` is the availability probe's answer;
        `curlReady` and `ex` are what the summarization request met. The
        server is asked only when there is text and it is up. */
    method GenerateSummary(serverUp: bool, curlReady: bool, ex: Exchange)
      returns (summary: string, sent: Option<Request>)
      ensures sent == if policyText != [] && serverUp && curlReady
                      then Some(Request(llm.apiUrl + "/api/generate",
                                        Payload(Prompt(policyText, lastKeywordAnalysis))))
                      else None
      ensures summary == Summary(policyText, lastKeywordAnalysis, serverUp, Outcome(curlReady, ex))
    {
      if policyText == [] {
        return NoTextError, None;
      }
      if !serverUp {
        return Framed(UnavailableBanner, lastKeywordAnalysis, ""), None;
      }
      var llmSummary;
      sent, llmSummary := llm.GenerateSummary(policyText, lastKeywordAnalysis, curlReady, ex);
      if FindFrom(llmSummary, ErrorTag, 0) == Some(0) {
        return Framed(IssueBanner, lastKeywordAnalysis, ""), sent;
      }
      return Framed(SummaryHeader, llmSummary, SummaryFooter), sent;
    }

    /** `storeCurrentPolicy()`. `storeOk` is the store's answer. Without
        text or source nothing is written and the answer is false. */
    method StoreCurrentPolicy(storeOk: bool) returns (ok: bool, written: Option<PolicyWrite>)
      ensures policyText == [] || currentSource == [] ==> !ok && written == None
      ensures policyText != [] && currentSource != [] ==>
                ok == storeOk && written == Some(PolicyWrite(policyText, currentSource, currentFilename))
    {
      if policyText == [] {
        return false, None;
      }
      if currentSource == [] {
        return false, None;
      }
      written := Some(PolicyWrite(policyText, currentSource, currentFilename));
      ok := storeOk;
    }

    /** `storeAnalysisResults(aiSummary)`. `policies` is the store's
        newest-first listing and `storeOk` its answer to the write. Without
        a report or a stored policy nothing is written; otherwise the report
        is stored against the newest policy. */
    method StoreAnalysisResults(aiSummary: string, policies: seq<PolicyRecord>, storeOk: bool)
      returns (ok: bool, written: Option<AnalysisWrite>)
      ensures lastKeywordAnalysis == [] || policies == [] ==> !ok && written == None
      ensures lastKeywordAnalysis != [] && policies != [] ==>
                ok == storeOk
                && written == Some(AnalysisWrite(LatestPolicyId(policies), lastKeywordAnalysis, aiSummary))
    {
      if lastKeywordAnalysis == [] {
        return false, None;
      }
      if |policies| == 0 {
        return false, None;
      }
      var latestPolicyId := policies[0].id;
      written := Some(AnalysisWrite(latestPolicyId, lastKeywordAnalysis, aiSummary));
      ok := storeOk;
    }
  }
}
