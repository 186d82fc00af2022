/** The deterministic stages of `LLMManager::generateSummary`
    (LLMManager.cpp): the policy text is truncated, cleaned and its spaces
    collapsed; a steering hint is derived from the keyword report; prompt
    and JSON payload are assembled; and the server's reply is mapped to
    either the unescaped `"response"` field or an `Error:` message. The
    HTTP transport is replaced by its observable outcome, an `Exchange`. */
module LlmManager {
  import opened Strings

  // ---------------------------------------------------------------------
  // Truncation
  // ---------------------------------------------------------------------

  /** `maxLength`: the prompt carries at most this many characters of the
      policy. */
  const MaxLength: nat := 500

  /** `policyText.substr(0, maxLength)`: the longest prefix of at most
      `MaxLength` characters. */
  function Truncate(s: string): (r: string)
    ensures StartsWith(s, r)
    ensures |r| == if |s| <= MaxLength then |s| else MaxLength
  {
    if |s| <= MaxLength then s else s[..MaxLength]
  }

  // ---------------------------------------------------------------------
  // Cleaning: line breaks to spaces, double quotes to single quotes
  // ---------------------------------------------------------------------

  /** No character of `s` is a double quote. */
  predicate QuoteFree(s: string)
  {
    forall i :: 0 <= i < |s| ==> s[i] != '"'
  }

  lemma QuoteFreeConcat(a: string, b: string)
    requires QuoteFree(a) && QuoteFree(b)
    ensures QuoteFree(a + b)
  {
  }

  function CleanChar(c: char): char
  {
    if c == '\r' || c == '\n' then ' '
    else if c == '"' then '\''
    else c
  }

  /** The cleaning pass, character by character. */
  function Clean(s: string): (r: string)
    ensures |r| == |s|
    ensures forall i :: 0 <= i < |s| ==> r[i] == CleanChar(s[i])
  {
    seq(|s|, i requires 0 <= i < |s| => CleanChar(s[i]))
  }

  /** Cleaning keeps the length, turns CR and LF into a space and `"` into
      `'`, leaves every other character alone, and so leaves no `"`, CR or
      LF in the text. */
  lemma CleanProperties(s: string)
    ensures |Clean(s)| == |s|
    ensures forall i :: 0 <= i < |s| ==>
              && ((s[i] == '\r' || s[i] == '\n') ==> Clean(s)[i] == ' ')
              && (s[i] == '"' ==> Clean(s)[i] == '\'')
              && (s[i] != '\r' && s[i] != '\n' && s[i] != '"' ==> Clean(s)[i] == s[i])
    ensures QuoteFree(Clean(s)) && '\r' !in Clean(s) && '\n' !in Clean(s)
  {
  }

  /** The cleaning loop. */
  method CleanText(s: string) returns (r: string)
    ensures r == Clean(s)
  {
    r := "";
    for i := 0 to |s|
      invariant r == Clean(s[..i])
    {
      var c := s[i];
      if c == '\r' || c == '\n' {
        r := r + [' '];
      } else if c == '"' {
        r := r + ['\''];
      } else {
        r := r + [c];
      }
      assert s[..i + 1] == s[..i] + [c];
    }
    assert s[..|s|] == s;
  }

  // ---------------------------------------------------------------------
  // Collapsing runs of spaces
  // ---------------------------------------------------------------------

  /** The collapse of `s` when the character before it was a space exactly
      if `lastWasSpace`. */
  function CollapseFrom(s: string, lastWasSpace: bool): string
  {
    if s == [] then []
    else if s[0] == ' ' then
      (if lastWasSpace then [] else [' ']) + CollapseFrom(s[1..], true)
    else [s[0]] + CollapseFrom(s[1..], false)
  }

  /** The space-collapse pass over a whole text. */
  function Collapse(s: string): string
  {
    CollapseFrom(s, false)
  }

  /** No two adjacent spaces. */
  predicate NoDoubleSpace(s: string)
  {
    forall i :: 0 <= i < |s| - 1 ==> !(s[i] == ' ' && s[i + 1] == ' ')
  }

  /** The characters of `s` other than spaces, in order. */
  function NonSpaces(s: string): (r: string)
    ensures forall c :: c in r <==> c in s && c != ' '
  {
    if s == [] then []
    else (if s[0] == ' ' then [] else [s[0]]) + NonSpaces(s[1..])
  }

  /** The collapse has no double space, never begins with a space after a
      space, and is never longer than its input. */
  lemma {:induction false} CollapseShape(s: string, lastWasSpace: bool)
    ensures var r := CollapseFrom(s, lastWasSpace);
            && NoDoubleSpace(r)
            && (lastWasSpace && r != [] ==> r[0] != ' ')
            && |r| <= |s|
    decreases |s|
  {
    if s != [] {
      CollapseShape(s[1..], s[0] == ' ');
    }
  }

  /** Only spaces are dropped: the other characters come through in order. */
  lemma {:induction false} CollapseKeepsNonSpaces(s: string, lastWasSpace: bool)
    ensures NonSpaces(CollapseFrom(s, lastWasSpace)) == NonSpaces(s)
    decreases |s|
  {
    if s != [] {
      CollapseKeepsNonSpaces(s[1..], s[0] == ' ');
      var rest := CollapseFrom(s[1..], s[0] == ' ');
      if s[0] == ' ' && lastWasSpace {
        assert CollapseFrom(s, lastWasSpace) == rest;
      } else {
        var head := if s[0] == ' ' then ' ' else s[0];
        assert CollapseFrom(s, lastWasSpace) == [head] + rest;
        assert ([head] + rest)[1..] == rest;
      }
    }
  }

  /** A text without double spaces (and not starting with a space right
      after one) is left as it is. */
  lemma {:induction false} CollapseFixpoint(s: string, lastWasSpace: bool)
    requires NoDoubleSpace(s) && (lastWasSpace && s != [] ==> s[0] != ' ')
    ensures CollapseFrom(s, lastWasSpace) == s
    decreases |s|
  {
    if s != [] {
      assert NoDoubleSpace(s[1..]) by {
        forall i | 0 <= i < |s[1..]| - 1 ensures !(s[1..][i] == ' ' && s[1..][i + 1] == ' ') {
          assert s[1..][i] == s[i + 1] && s[1..][i + 1] == s[i + 2];
        }
      }
      CollapseFixpoint(s[1..], s[0] == ' ');
      assert s == [s[0]] + s[1..];
    }
  }

  /** A run of spaces starts at `i`: a space that is first in the text or
      follows a non-space. */
  predicate RunStart(s: string, i: nat)
    requires i < |s|
  {
    s[i] == ' ' && (i == 0 || s[i - 1] != ' ')
  }

  /** The number of runs of spaces starting at or after index `k`. */
  function RunsFrom(s: string, k: nat): nat
    requires k <= |s|
    decreases |s| - k
  {
    if k == |s| then 0 else (if RunStart(s, k) then 1 else 0) + RunsFrom(s, k + 1)
  }

  /** Each maximal run of spaces leaves exactly one space: the collapse
      of the text from index `k` on, entered with the flag the loop holds
      there, has as many spaces as runs start from `k` on. */
  lemma {:induction false} CollapseRunsFrom(s: string, k: nat)
    requires k <= |s|
    ensures multiset(CollapseFrom(s[k..], k > 0 && s[k - 1] == ' '))[' '] == RunsFrom(s, k)
    decreases |s| - k
  {
    if k < |s| {
      CollapseRunsFrom(s, k + 1);
      assert s[k..][0] == s[k] && s[k..][1..] == s[k + 1..];
    }
  }

  /** The collapsed text has one space per maximal run of spaces. */
  lemma CollapseOneSpacePerRun(s: string)
    ensures multiset(Collapse(s))[' '] == RunsFrom(s, 0)
  {
    CollapseRunsFrom(s, 0);
    assert s[0..] == s;
  }

  /** Collapsing twice is collapsing once. */
  lemma CollapseIdempotent(s: string)
    ensures Collapse(Collapse(s)) == Collapse(s)
  {
    CollapseShape(s, false);
    CollapseFixpoint(Collapse(s), false);
  }

  /** One round of the space-collapse loop at index `i`: a space after a
      space is dropped, another space is kept and sets the flag, any other
      character is kept and clears it. */
  lemma CollapseAt(s: string, i: nat, lastWasSpace: bool, r: string)
    requires i < |s|
    ensures s[i] == ' ' && lastWasSpace ==>
              r + CollapseFrom(s[i..], lastWasSpace) == r + CollapseFrom(s[i + 1..], true)
    ensures s[i] == ' ' && !lastWasSpace ==>
              r + CollapseFrom(s[i..], lastWasSpace) == (r + [' ']) + CollapseFrom(s[i + 1..], true)
    ensures s[i] != ' ' ==>
              r + CollapseFrom(s[i..], lastWasSpace) == (r + [s[i]]) + CollapseFrom(s[i + 1..], false)
  {
    assert s[i..][0] == s[i] && s[i..][1..] == s[i + 1..];
  }

  /** The space-collapse loop with its `lastWasSpace` flag. */
  method CollapseSpaces(s: string) returns (r: string)
    ensures r == Collapse(s)
  {
    r := "";
    var lastWasSpace := false;
    for i := 0 to |s|
      invariant r + CollapseFrom(s[i..], lastWasSpace) == Collapse(s)
    {
      var c := s[i];
      CollapseAt(s, i, lastWasSpace, r);
      if c == ' ' {
        if !lastWasSpace {
          r := r + [' '];
          lastWasSpace := true;
        }
      } else {
        r := r + [c];
        lastWasSpace := false;
      }
    }
  }

  // ---------------------------------------------------------------------
  // The text that goes into the prompt
  // ---------------------------------------------------------------------

  /** `finalText`: truncated, cleaned, spaces collapsed. */
  function Sanitize(policyText: string): string
  {
    Collapse(Clean(Truncate(policyText)))
  }

  /** The sanitized text is no longer than the truncation bound or the
      policy, holds no `"`, CR or LF, and has no double space. */
  lemma SanitizeProperties(policyText: string)
    ensures |Sanitize(policyText)| <= |policyText| && |Sanitize(policyText)| <= MaxLength
    ensures QuoteFree(Sanitize(policyText))
    ensures '\r' !in Sanitize(policyText) && '\n' !in Sanitize(policyText)
    ensures NoDoubleSpace(Sanitize(policyText))
  {
    var c := Clean(Truncate(policyText));
    CleanProperties(Truncate(policyText));
    CollapseShape(c, false);
    CollapseKeepsNonSpaces(c, false);
    var r := Collapse(c);
    forall i | 0 <= i < |r| ensures r[i] != '"' && r[i] != '\r' && r[i] != '\n' {
      assert r[i] in r;
      if r[i] != ' ' {
        assert r[i] in NonSpaces(r);
      }
    }
  }

  // ---------------------------------------------------------------------
  // Steering hint and prompt
  // ---------------------------------------------------------------------

  const CollectionLabel := "Data Collection"
  const SharingLabel := "Data Sharing"
  const RightsLabel := "User Rights"
  const CollectionPhrase := " Focus on data collection practices."
  const SharingPhrase := " Focus on data sharing practices."
  const RightsPhrase := " Focus on user rights."

  /** The phrase for one heading: present exactly when the heading occurs in
      the report. */
  function HintPart(keywordAnalysis: string, heading: string, phrase: string): string
  {
    if Contains(keywordAnalysis, heading) then phrase else ""
  }

  /** `keywordHint`: nothing for an empty report, otherwise the phrases of
      the labels found in it, in the fixed order collection, sharing,
      rights. */
  function Hint(keywordAnalysis: string): (r: string)
  {
    if keywordAnalysis == [] then ""
    else
      HintPart(keywordAnalysis, CollectionLabel, CollectionPhrase)
      + (HintPart(keywordAnalysis, SharingLabel, SharingPhrase)
         + HintPart(keywordAnalysis, RightsLabel, RightsPhrase))
  }

  /** An empty report never contains a heading. */
  lemma NothingInEmpty(heading: string)
    requires |heading| > 0
    ensures !Contains("", heading)
  {
  }

  /** The hint is empty exactly when none of the three labels occurs in
      the report (an empty report contains none of them). */
  lemma HintEmpty(keywordAnalysis: string)
    ensures Hint(keywordAnalysis) == "" <==>
              (!Contains(keywordAnalysis, CollectionLabel)
               && !Contains(keywordAnalysis, SharingLabel)
               && !Contains(keywordAnalysis, RightsLabel))
  {
    if keywordAnalysis == [] {
      NothingInEmpty(CollectionLabel);
      NothingInEmpty(SharingLabel);
      NothingInEmpty(RightsLabel);
    } else {
      assert |CollectionPhrase| > 0 && |SharingPhrase| > 0 && |RightsPhrase| > 0;
    }
  }

  /** The letters that tell the three phrases apart. */
  lemma PhraseShapes()
    ensures |CollectionPhrase| == 36 && |SharingPhrase| == 33 && |RightsPhrase| == 22
    ensures CollectionPhrase[15] == 'c' && SharingPhrase[15] == 's'
    ensures CollectionPhrase[33] == 'e' && SharingPhrase[30] == 'e' && RightsPhrase[19] == 't'
  {
  }

  /** A string that differs from `p` at an index both share does not
      begin with `p`. */
  lemma DifferAt(s: string, p: string, i: nat)
    requires i < |s| && i < |p| && s[i] != p[i]
    ensures !StartsWith(s, p)
  {
    assert |p| <= |s| ==> s[..|p|][i] == s[i];
  }

  /** A string that differs from `p` at the same distance from both ends
      does not end with `p`. */
  lemma DifferFromEnd(s: string, p: string, k: nat)
    requires 0 < k <= |s| && k <= |p| && s[|s| - k] != p[|p| - k]
    ensures !EndsWith(s, p)
  {
    assert |p| <= |s| ==> s[|s| - |p|..][|p| - k] == s[|s| - k];
  }

  /** The collection phrase leads the hint exactly when "Data Collection"
      occurs in the report. */
  lemma HintLeads(keywordAnalysis: string)
    ensures StartsWith(Hint(keywordAnalysis), CollectionPhrase) <==> Contains(keywordAnalysis, CollectionLabel)
  {
    var h := Hint(keywordAnalysis);
    if keywordAnalysis == [] {
      NothingInEmpty(CollectionLabel);
    } else {
      var a := HintPart(keywordAnalysis, CollectionLabel, CollectionPhrase);
      var b := HintPart(keywordAnalysis, SharingLabel, SharingPhrase);
      var c := HintPart(keywordAnalysis, RightsLabel, RightsPhrase);
      assert h == a + (b + c);
      PhraseShapes();
      if a != "" {
        ConcatEnds(a, b, c);
      } else if b != "" {
        assert h == b + c && h[15] == b[15];
        DifferAt(h, CollectionPhrase, 15);
      } else {
        assert h == c;
      }
    }
  }

  /** The rights phrase ends the hint exactly when "User Rights" occurs in
      the report. */
  lemma HintEnds(keywordAnalysis: string)
    ensures EndsWith(Hint(keywordAnalysis), RightsPhrase) <==> Contains(keywordAnalysis, RightsLabel)
  {
    var h := Hint(keywordAnalysis);
    if keywordAnalysis == [] {
      NothingInEmpty(RightsLabel);
    } else {
      var a := HintPart(keywordAnalysis, CollectionLabel, CollectionPhrase);
      var b := HintPart(keywordAnalysis, SharingLabel, SharingPhrase);
      var c := HintPart(keywordAnalysis, RightsLabel, RightsPhrase);
      assert h == a + (b + c);
      PhraseShapes();
      if c != "" {
        ConcatEnds(a, b, c);
      } else if b != "" {
        assert h == a + b && h[|h| - 3] == b[|b| - 3];
        DifferFromEnd(h, RightsPhrase, 3);
      } else if a != "" {
        assert h == a && h[|h| - 3] == a[|a| - 3];
        DifferFromEnd(h, RightsPhrase, 3);
      } else {
        assert h == "";
      }
    }
  }

  /** The sharing phrase occurs in the hint exactly when "Data Sharing"
      occurs in the report. */
  lemma HintShares(keywordAnalysis: string)
    ensures Contains(Hint(keywordAnalysis), SharingPhrase) <==> Contains(keywordAnalysis, SharingLabel)
  {
    var h := Hint(keywordAnalysis);
    if keywordAnalysis == [] {
      NothingInEmpty(SharingLabel);
      NothingInEmpty(SharingPhrase);
    } else {
      var a := HintPart(keywordAnalysis, CollectionLabel, CollectionPhrase);
      var b := HintPart(keywordAnalysis, SharingLabel, SharingPhrase);
      var c := HintPart(keywordAnalysis, RightsLabel, RightsPhrase);
      assert h == a + (b + c);
      if b != "" {
        ConcatMiddle(a, b, c);
        assert OccursAt(h, SharingPhrase, |a|);
      } else {
        assert h == a + c;
        if Contains(h, SharingPhrase) {
          SharingNotAt(a, c, FindFrom(h, SharingPhrase, 0).value);
        }
      }
    }
  }

  /** The only capital F of the collection phrase is its second character. */
  lemma CollectionOneCapital(k: nat)
    requires 1 < k < |CollectionPhrase|
    ensures CollectionPhrase[k] != 'F'
  {
  }

  /** Neither the collection phrase nor the rights phrase, alone or
      together, holds the sharing phrase at any index: at the start the
      collection phrase parts from it at index 15, and elsewhere the match
      would need an `F` where there is none. */
  lemma SharingNotAt(a: string, c: string, i: nat)
    requires a == "" || a == CollectionPhrase
    requires c == "" || c == RightsPhrase
    ensures !OccursAt(a + c, SharingPhrase, i)
  {
    var h := a + c;
    if i + |SharingPhrase| <= |h| {
      assert a == CollectionPhrase;
      if i == 0 {
        assert h[15] == CollectionPhrase[15] == 'c';
        NotAt(h, SharingPhrase, 0, 15);
      } else {
        CollectionOneCapital(i + 1);
        NotAt(h, SharingPhrase, i, 1);
      }
    }
  }

  /** The hint never holds a double quote. */
  lemma HintQuoteFree(keywordAnalysis: string)
    ensures QuoteFree(Hint(keywordAnalysis))
  {
    assert QuoteFree(CollectionPhrase);
    assert QuoteFree(SharingPhrase);
    assert QuoteFree(RightsPhrase);
  }

  /** The instruction, "Summarize this privacy policy in 3-4 sentences:",
      kept in two halves so that facts about its characters are proved on
      short strings. */
  const IntroHead := "Summarize this privacy "
  const IntroTail := "policy in 3-4 sentences:"
  const Intro := IntroHead + IntroTail
  const TextTag := " Text: "

  /** `prompt`: the instruction, then the hint, then the sanitized policy
      after its tag. */
  function Prompt(policyText: string, keywordAnalysis: string): (r: string)
    ensures StartsWith(r, Intro)
    ensures EndsWith(r, TextTag + Sanitize(policyText))
    ensures |r| == |Intro| + |Hint(keywordAnalysis)| + |TextTag + Sanitize(policyText)|
    ensures r[|Intro|..|Intro| + |Hint(keywordAnalysis)|] == Hint(keywordAnalysis)
  {
    var hint, text := Hint(keywordAnalysis), TextTag + Sanitize(policyText);
    ConcatMiddle(Intro, hint, text);
    Intro + (hint + text)
  }

  /** The prompt never contains a double quote, so the payload's
      `"prompt"` value cannot end early at a quote of the prompt. Backslashes
      and control characters other than CR and LF are not escaped, so the
      payload need not be valid JSON. */
  lemma PromptQuoteFree(policyText: string, keywordAnalysis: string)
    ensures QuoteFree(Prompt(policyText, keywordAnalysis))
  {
    var hint, text := Hint(keywordAnalysis), Sanitize(policyText);
    HintQuoteFree(keywordAnalysis);
    SanitizeProperties(policyText);
    FixedTextQuoteFree();
    QuoteFreeConcat(TextTag, text);
    QuoteFreeConcat(hint, TextTag + text);
    QuoteFreeConcat(Intro, hint + (TextTag + text));
  }

  /** The prompt's fixed pieces hold no double quote. */
  lemma FixedTextQuoteFree()
    ensures QuoteFree(Intro) && QuoteFree(TextTag)
  {
    assert QuoteFree(IntroHead) && QuoteFree(IntroTail);
    QuoteFreeConcat(IntroHead, IntroTail);
  }

  const ModelField := "{\"model\":\"gemma:2b\","
  const PromptMarker := "\"prompt\":\""
  const StreamField := ",\"stream\":false}"
  const PayloadHead := ModelField + PromptMarker
  const PayloadTail := "\"" + StreamField

  /** `jsonPayload`. The model name is fixed to `gemma:2b` whatever model
      the manager was built with. */
  function Payload(prompt: string): (r: string)
    ensures StartsWith(r, PayloadHead) && EndsWith(r, PayloadTail)
    ensures |r| == |PayloadHead| + |prompt| + |PayloadTail|
    ensures r[|PayloadHead|..|r| - |PayloadTail|] == prompt
  {
    ConcatMiddle(PayloadHead, prompt, PayloadTail);
    PayloadHead + (prompt + PayloadTail)
  }

  /** Cleaning leaves backslashes alone, so a backslash in the first
      `MaxLength` characters of the policy reaches the payload unescaped. */
  lemma PayloadKeepsBackslash(policyText: string, keywordAnalysis: string)
    requires '\\' in Truncate(policyText)
    ensures '\\' in Sanitize(policyText)
    ensures '\\' in Payload(Prompt(policyText, keywordAnalysis))
  {
    var t := Truncate(policyText);
    var i :| 0 <= i < |t| && t[i] == '\\';
    var cleaned := Clean(t);
    assert cleaned[i] == '\\' && '\\' in cleaned;
    CollapseKeepsNonSpaces(cleaned, false);
    assert '\\' in NonSpaces(Collapse(cleaned));
    var text := TextTag + Sanitize(policyText);
    var prompt := Prompt(policyText, keywordAnalysis);
    assert '\\' in text;
    assert prompt[|prompt| - |text|..] == text;
    assert '\\' in prompt;
    var payload := Payload(prompt);
    assert payload == PayloadHead + (prompt + PayloadTail);
    assert '\\' in payload;
  }

  /** The hint built as the source builds it: assigned for the collection
      label, then appended to for the other two. */
  method KeywordHint(keywordAnalysis: string) returns (keywordHint: string)
    ensures keywordHint == Hint(keywordAnalysis)
  {
    keywordHint := "";
    if keywordAnalysis != [] {
      if Contains(keywordAnalysis, CollectionLabel) {
        keywordHint := CollectionPhrase;
      }
      if Contains(keywordAnalysis, SharingLabel) {
        keywordHint := keywordHint + SharingPhrase;
      }
      if Contains(keywordAnalysis, RightsLabel) {
        keywordHint := keywordHint + RightsPhrase;
      }
      ConcatAssoc(HintPart(keywordAnalysis, CollectionLabel, CollectionPhrase),
                  HintPart(keywordAnalysis, SharingLabel, SharingPhrase),
                  HintPart(keywordAnalysis, RightsLabel, RightsPhrase));
    }
  }

  // ---------------------------------------------------------------------
  // Reply parsing
  // ---------------------------------------------------------------------

  const ResponseMarker := "\"response\":\""

  /** The value of a string field: the text after the first `marker` up to
      the next double quote, or `None` when either is missing. */
  function FieldValue(body: string, marker: string): (r: Option<string>)
    ensures r.Some? ==> QuoteFree(r.value)
  {
    match FindFrom(body, marker, 0)
    case None => None
    case Some(p) =>
      match FindFrom(body, "\"", p + |marker|)
      case None => None
      case Some(e) =>
        var v := body[p + |marker|..e];
        assert forall k :: 0 <= k < |v| ==> v[k] != '"' by {
          forall k | 0 <= k < |v| ensures v[k] != '"' {
            OccursAtChar(body, '"', p + |marker| + k);
          }
        }
        Some(v)
  }

  /** The search for a closing quote from `s` stops at the first quote. */
  lemma FirstQuote(body: string, s: nat, e: nat)
    requires s <= e < |body| && body[e] == '"'
    requires forall k :: s <= k < e ==> body[k] != '"'
    ensures FindFrom(body, "\"", s) == Some(e)
  {
    forall j: nat | s <= j < e ensures !OccursAt(body, "\"", j) {
      OccursAtChar(body, '"', j);
    }
    OccursAtChar(body, '"', e);
    FindFromIs(body, "\"", s, e);
  }

  /** A quote-free value written after the first occurrence of the marker
      and closed by a quote is read back exactly. */
  lemma FieldValueRoundTrip(pre: string, marker: string, v: string, rest: string)
    requires forall j: nat :: j < |pre| ==> !OccursAt(pre + marker + v + "\"" + rest, marker, j)
    requires QuoteFree(v)
    ensures FieldValue(pre + marker + v + "\"" + rest, marker) == Some(v)
  {
    var body := pre + marker + v + "\"" + rest;
    var s := |pre| + |marker|;
    var e := s + |v|;
    assert body[|pre|..s] == marker;
    FindFromIs(body, marker, 0, |pre|);
    assert body[s..e] == v;
    assert forall k :: s <= k < e ==> body[k] == v[k - s];
    assert body[e] == '"';
    FirstQuote(body, s, e);
  }

  /** A marker whose second character does not occur in `pre` (and differs
      from its first) does not occur before it. */
  lemma MarkerNotBefore(pre: string, marker: string, tail: string, j: nat)
    requires |marker| >= 2 && marker[0] != marker[1] && j < |pre|
    requires forall i :: 0 <= i < |pre| ==> pre[i] != marker[1]
    ensures !OccursAt(pre + marker + tail, marker, j)
  {
    var body := pre + marker + tail;
    assert body[j + 1] != marker[1] by {
      if j + 1 < |pre| {
        assert body[j + 1] == pre[j + 1];
      } else {
        assert body[j + 1] == marker[0];
      }
    }
  }

  /** The `"model"` field holds no `p`, the second character of the
      prompt marker. */
  lemma ModelFieldLacksMarker()
    ensures forall i :: 0 <= i < |ModelField| ==> ModelField[i] != PromptMarker[1]
  {
    assert PromptMarker[1] == 'p';
    assert ModelField == "{\"model\":" + "\"gemma:2b\",";
    assert forall i :: 0 <= i < 9 ==> "{\"model\":"[i] != 'p';
    assert forall i :: 0 <= i < 11 ==> "\"gemma:2b\","[i] != 'p';
  }

  /** The payload's nesting of appends, regrouped from the left. */
  lemma PayloadRegroup(pre: string, marker: string, v: string, q: string, rest: string)
    ensures (pre + marker) + (v + (q + rest)) == pre + marker + v + q + rest
    ensures pre + marker + v + q + rest == pre + marker + (v + q + rest)
  {
  }

  /** A quote-free prompt is read back from the payload's `"prompt"`
      field. */
  lemma PayloadField(prompt: string)
    requires QuoteFree(prompt)
    ensures FieldValue(Payload(prompt), PromptMarker) == Some(prompt)
  {
    var pre, marker, rest := ModelField, PromptMarker, StreamField;
    var tail := prompt + "\"" + rest;
    var body := pre + marker + prompt + "\"" + rest;
    PayloadRegroup(pre, marker, prompt, "\"", rest);
    ModelFieldLacksMarker();
    forall j: nat | j < |pre| ensures !OccursAt(body, marker, j) {
      MarkerNotBefore(pre, marker, tail, j);
    }
    FieldValueRoundTrip(pre, marker, prompt, rest);
  }

  /** The payload carries the prompt as its `"prompt"` field. */
  lemma PayloadCarriesPrompt(policyText: string, keywordAnalysis: string)
    ensures var prompt := Prompt(policyText, keywordAnalysis);
            FieldValue(Payload(prompt), PromptMarker) == Some(prompt)
  {
    PromptQuoteFree(policyText, keywordAnalysis);
    PayloadField(Prompt(policyText, keywordAnalysis));
  }

  /** The server's answer to a JSON-escaped quote `\"` in the summary: the
      value is cut just after its backslash, so the unescape branch for an
      escaped quote is never reached. */
  lemma EscapedQuoteCutsReply(pre: string, a: string, b: string)
    requires forall j: nat :: j < |pre| ==>
               !OccursAt(pre + ResponseMarker + (a + "\\") + "\"" + b, ResponseMarker, j)
    requires QuoteFree(a)
    ensures FieldValue(pre + ResponseMarker + (a + "\\") + "\"" + b, ResponseMarker) == Some(a + "\\")
  {
    QuoteFreeConcat(a, "\\");
    FieldValueRoundTrip(pre, ResponseMarker, a + "\\", b);
  }

  /** The minimal unescape: `\n` becomes a line feed, `\\` and `\"` their
      second character, and any other backslash (a trailing one included)
      is kept. */
  function Unescape(s: string): (r: string)
    decreases |s|
  {
    if s == [] then []
    else if s[0] == '\\' && |s| >= 2 then
      if s[1] == 'n' then ['\n'] + Unescape(s[2..])
      else if s[1] == '\\' || s[1] == '"' then [s[1]] + Unescape(s[2..])
      else ['\\'] + Unescape(s[1..])
    else [s[0]] + Unescape(s[1..])
  }

  /** Unescaping never lengthens the text. */
  lemma {:induction false} UnescapeShorter(s: string)
    ensures |Unescape(s)| <= |s|
    decreases |s|
  {
    if s != [] {
      if s[0] == '\\' && |s| >= 2 && (s[1] == 'n' || s[1] == '\\' || s[1] == '"') {
        UnescapeShorter(s[2..]);
      } else {
        UnescapeShorter(s[1..]);
      }
    }
  }

  /** A text without backslashes is unescaped to itself. */
  lemma {:induction false} UnescapePlain(s: string)
    requires '\\' !in s
    ensures Unescape(s) == s
    decreases |s|
  {
    if s != [] {
      assert '\\' !in s[1..] by {
        forall k | 0 <= k < |s[1..]| ensures s[1..][k] != '\\' {
          assert s[1..][k] == s[k + 1];
        }
      }
      UnescapePlain(s[1..]);
      assert s == [s[0]] + s[1..];
    }
  }

  /** How a JSON writer escapes line feeds and backslashes. */
  function Escape(s: string): (r: string)
    ensures |r| >= |s|
  {
    if s == [] then []
    else (if s[0] == '\n' then "\\n" else if s[0] == '\\' then "\\\\" else [s[0]]) + Escape(s[1..])
  }

  /** Unescaping undoes that escaping. */
  lemma {:induction false} UnescapeEscape(s: string)
    ensures Unescape(Escape(s)) == s
    decreases |s|
  {
    if s != [] {
      UnescapeEscape(s[1..]);
      var e := Escape(s);
      var tail := Escape(s[1..]);
      if s[0] == '\n' || s[0] == '\\' {
        assert e == [ '\\', if s[0] == '\n' then 'n' else '\\'] + tail;
        assert e[2..] == tail;
      } else {
        assert e == [s[0]] + tail;
        assert e[1..] == tail;
      }
      assert s == [s[0]] + s[1..];
    }
  }

  /** One step of unescaping at index `i`: an escape pair yields one
      character and consumes two, anything else is copied. */
  lemma UnescapeAt(s: string, i: nat)
    requires i < |s|
    ensures s[i] == '\\' && i + 1 < |s| && s[i + 1] == 'n'
            ==> Unescape(s[i..]) == ['\n'] + Unescape(s[i + 2..])
    ensures s[i] == '\\' && i + 1 < |s| && (s[i + 1] == '\\' || s[i + 1] == '"')
            ==> Unescape(s[i..]) == [s[i + 1]] + Unescape(s[i + 2..])
    ensures !(s[i] == '\\' && i + 1 < |s| && (s[i + 1] == 'n' || s[i + 1] == '\\' || s[i + 1] == '"'))
            ==> Unescape(s[i..]) == [s[i]] + Unescape(s[i + 1..])
  {
    var t := s[i..];
    assert t[0] == s[i];
    if i + 1 < |s| {
      assert t[1] == s[i + 1];
      assert t[2..] == s[i + 2..];
    }
    assert t[1..] == s[i + 1..];
  }

  /** Appending the character one unescape step yields keeps the
      loop's invariant. */
  lemma Emit(s: string, i: nat, r: string, c: char, w: nat)
    requires i < |s| && i + w <= |s| && Unescape(s[i..]) == [c] + Unescape(s[i + w..])
    ensures r + Unescape(s[i..]) == (r + [c]) + Unescape(s[i + w..])
  {
  }

  /** The unescape loop, which skips the escaped character by advancing
      `i` an extra step. */
  method UnescapeText(s: string) returns (r: string)
    ensures r == Unescape(s)
  {
    r := "";
    var i := 0;
    while i < |s|
      invariant i <= |s|
      invariant Unescape(s) == r + Unescape(s[i..])
      decreases |s| - i
    {
      if s[i] == '\\' && i + 1 < |s| && s[i + 1] == 'n' {
        UnescapeAt(s, i);
        Emit(s, i, r, '\n', 2);
        r, i := r + ['\n'], i + 2;
      } else if s[i] == '\\' && i + 1 < |s| && (s[i + 1] == '\\' || s[i + 1] == '"') {
        UnescapeAt(s, i);
        Emit(s, i, r, s[i + 1], 2);
        r, i := r + [s[i + 1]], i + 2;
      } else {
        UnescapeAt(s, i);
        Emit(s, i, r, s[i], 1);
        r, i := r + [s[i]], i + 1;
      }
    }
  }

  // ---------------------------------------------------------------------
  // Outcome of a request
  // ---------------------------------------------------------------------

  /** What the transport observed: whether `curl_easy_perform` succeeded
      (and its error text when not), the HTTP status, and the body. */
  datatype Exchange = Exchange(transportOk: bool, transportError: string, status: int, body: string)

  /** Every failure message begins with this tag. */
  const ErrorTag := "Error:"
  const InitError := ErrorTag + " Failed to initialize CURL"
  const EmptyError := ErrorTag + " Empty response from LLM server"
  const ParseError := ErrorTag + " Could not parse LLM response"

  lemma Tagged(rest: string)
    ensures StartsWith(ErrorTag + rest, ErrorTag)
  {
    assert (ErrorTag + rest)[..|ErrorTag|] == ErrorTag;
  }

  /** The request went wrong somewhere: no handle, a transport failure, a
      status other than 200, an empty body, or no readable
      `"response"` field. */
  predicate Failed(curlReady: bool, ex: Exchange)
  {
    !curlReady || !ex.transportOk || ex.status != 200 || ex.body == []
    || FieldValue(ex.body, ResponseMarker).None?
  }

  /** The string `generateSummary` returns for the exchange `ex`. Every
      failure gives a message starting with `Error:`, checked in the
      source's order; otherwise the reply is the unescaped field value. */
  function Outcome(curlReady: bool, ex: Exchange): (r: string)
    ensures Failed(curlReady, ex) ==> StartsWith(r, ErrorTag)
    ensures !Failed(curlReady, ex) ==> r == Unescape(FieldValue(ex.body, ResponseMarker).value)
    ensures !curlReady ==> r == InitError
    ensures curlReady && !ex.transportOk ==> r == ErrorTag + " CURL failed - " + ex.transportError
    ensures curlReady && ex.transportOk && ex.status != 200 ==> r == ErrorTag + " HTTP " + IntToString(ex.status)
    ensures curlReady && ex.transportOk && ex.status == 200 && ex.body == [] ==> r == EmptyError
    ensures (curlReady && ex.transportOk && ex.status == 200 && ex.body != []
             && FieldValue(ex.body, ResponseMarker).None?) ==> r == ParseError
  {
    Tagged(" Failed to initialize CURL");
    Tagged(" CURL failed - " + ex.transportError);
    Tagged(" HTTP " + IntToString(ex.status));
    assert ErrorTag + " CURL failed - " + ex.transportError == ErrorTag + (" CURL failed - " + ex.transportError);
    assert ErrorTag + " HTTP " + IntToString(ex.status) == ErrorTag + (" HTTP " + IntToString(ex.status));
    if !curlReady then InitError
    else if !ex.transportOk then ErrorTag + " CURL failed - " + ex.transportError
    else if ex.status != 200 then ErrorTag + " HTTP " + IntToString(ex.status)
    else Reply(ex.body)
  }

  /** The answer read from a successful exchange's body: an error for an
      empty body or one without a readable `"response"` field, otherwise
      the unescaped field value. */
  function Reply(body: string): (r: string)
    ensures body == [] || FieldValue(body, ResponseMarker).None? ==> StartsWith(r, ErrorTag)
    ensures body == [] ==> r == EmptyError
    ensures body != [] && FieldValue(body, ResponseMarker).None? ==> r == ParseError
    ensures FieldValue(body, ResponseMarker).Some? ==> r == Unescape(FieldValue(body, ResponseMarker).value)
  {
    Tagged(" Empty response from LLM server");
    Tagged(" Could not parse LLM response");
    if body == [] then EmptyError
    else match FieldValue(body, ResponseMarker)
      case None => ParseError
      case Some(v) => Unescape(v)
  }

  /** The parsing half of `generateSummary`: find the field, cut it at the
      next quote and unescape it. */
  method ParseReply(response: string) returns (result: string)
    ensures result == Reply(response)
  {
    if response == [] {
      return EmptyError;
    }
    var responsePos := FindFrom(response, ResponseMarker, 0);
    if responsePos.Some? {
      var start := responsePos.value + |ResponseMarker|;
      var endPos := FindFrom(response, "\"", start);
      if endPos.Some? {
        var extracted := response[start..endPos.value];
        result := UnescapeText(extracted);
        return result;
      }
    }
    return ParseError;
  }

  /** A well-formed reply carrying the escaped summary `x` gives back `x`. */
  lemma ReplyRoundTrip(pre: string, x: string, rest: string)
    requires forall j: nat :: j < |pre| ==>
               !OccursAt(pre + ResponseMarker + Escape(x) + "\"" + rest, ResponseMarker, j)
    requires QuoteFree(x)
    ensures Outcome(true, Exchange(true, "", 200, pre + ResponseMarker + Escape(x) + "\"" + rest)) == x
  {
    EscapeQuoteFree(x);
    FieldValueRoundTrip(pre, ResponseMarker, Escape(x), rest);
    UnescapeEscape(x);
  }

  lemma {:induction false} EscapeQuoteFree(s: string)
    requires QuoteFree(s)
    ensures QuoteFree(Escape(s))
    decreases |s|
  {
    if s != [] {
      assert QuoteFree(s[1..]) by {
        forall k | 0 <= k < |s[1..]| ensures s[1..][k] != '"' {
          assert s[1..][k] == s[k + 1];
        }
      }
      EscapeQuoteFree(s[1..]);
      var head := if s[0] == '\n' then "\\n" else if s[0] == '\\' then "\\\\" else [s[0]];
      assert QuoteFree(head);
      QuoteFreeConcat(head, Escape(s[1..]));
    }
  }

  /** The HTTP request that would be posted: endpoint and JSON body. */
  datatype Request = Request(url: string, payload: string)

  /** `LLMManager`: the server address and model name it was built with. */
  class LlmClient {
    const apiUrl: string
    const modelName: string

    constructor(url: string, model: string)
      ensures apiUrl == url && modelName == model
    {
      apiUrl := url;
      modelName := model;
    }

    /** `generateSummary(policyText, keywordAnalysis)`. `curlReady` says
        whether a handle could be created and `ex` is what the server made
        of the request; the request is returned alongside the result so
        that its content can be stated. */
    method GenerateSummary(policyText: string, keywordAnalysis: string, curlReady: bool, ex: Exchange)
      returns (sent: Option<Request>, result: string)
      ensures sent == if curlReady then Some(Request(apiUrl + "/api/generate",
                                                    Payload(Prompt(policyText, keywordAnalysis))))
                      else None
      ensures result == Outcome(curlReady, ex)
    {
      if !curlReady {
        return None, InitError;
      }
      var url := apiUrl + "/api/generate";
      var textToAnalyze := Truncate(policyText);
      var cleanText := CleanText(textToAnalyze);
      var finalText := CollapseSpaces(cleanText);
      var keywordHint := KeywordHint(keywordAnalysis);
      var prompt := Intro + (keywordHint + (TextTag + finalText));
      assert prompt == Prompt(policyText, keywordAnalysis);
      sent := Some(Request(url, Payload(prompt)));

      if !ex.transportOk {
        return sent, ErrorTag + " CURL failed - " + ex.transportError;
      }
      if ex.status != 200 {
        return sent, ErrorTag + " HTTP " + IntToString(ex.status);
      }
      result := ParseReply(ex.body);
    }
  }
}
