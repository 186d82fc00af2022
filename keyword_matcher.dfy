/** The keyword scan of `KeywordMatcher` (KeywordMatcher.cpp): for each
    (term, category) pair of the keyword list, every case-insensitive
    whole-word occurrence of the term is appended to the category's list and
    counted in the category's total.

    The source builds the pattern `\b<term>\b` with `regex_constants::icase`
    and restarts `regex_search` at the end of each match. This module states
    that search without a regex engine: `MatchesAt` is the literal match of
    the term between two word boundaries, comparing ASCII letters without
    case, and `MatchPositions` is the left-to-right, resume-after-the-match
    scan. The two agree for the terms `WordTerm` admits. */
module KeywordMatching {
  import opened Strings
  import opened KeywordReport

  /** One row of the keyword dictionary: `pair<string, string>` of
      (keyword, category). */
  datatype KeywordEntry = KeywordEntry(term: string, category: string)

  // ---------------------------------------------------------------------
  // Whole-word, case-insensitive matching
  // ---------------------------------------------------------------------

  /** A character of the regex class `\w`. */
  predicate IsWordChar(c: char)
  {
    'a' <= c <= 'z' || 'A' <= c <= 'Z' || '0' <= c <= '9' || c == '_'
  }

  /** ASCII case folding, as `icase` compares characters. */
  function Lower(c: char): char
  {
    if 'A' <= c <= 'Z' then (c as int - 'A' as int + 'a' as int) as char else c
  }

  /** A character with a meaning of its own in an ECMAScript pattern. */
  predicate IsRegexMeta(c: char)
  {
    c in "\\^$.|?*+()[]{}"
  }

  /** A term that the pattern `\b<term>\b` matches literally: non-empty,
      free of metacharacters, and beginning and ending with a word
      character (so that resuming the search at the end of a match cannot
      find a match the whole-text search would not). */
  predicate WordTerm(term: string)
  {
    && |term| > 0
    && IsWordChar(term[0]) && IsWordChar(term[|term| - 1])
    && forall i :: 0 <= i < |term| ==> !IsRegexMeta(term[i])
  }

  predicate WordTerms(kws: seq<KeywordEntry>)
  {
    forall e :: e in kws ==> WordTerm(e.term)
  }

  /** `\b` at position `p` of `text`: exactly one of the characters on
      either side is a word character. */
  predicate IsBoundary(text: string, p: nat)
    requires p <= |text|
  {
    (p > 0 && IsWordChar(text[p - 1])) != (p < |text| && IsWordChar(text[p]))
  }

  /** `\b<term>\b` matches at index `i` of `text`, ignoring case. */
  predicate MatchesAt(text: string, term: string, i: nat)
  {
    && i + |term| <= |text|
    && (forall k :: 0 <= k < |term| ==> Lower(text[i + k]) == Lower(term[k]))
    && IsBoundary(text, i)
    && IsBoundary(text, i + |term|)
  }

  /** One `regex_search` from `from`: the leftmost match at or after it. */
  function FirstMatch(text: string, term: string, from: nat): (r: Option<nat>)
    ensures r.Some? ==> from <= r.value
    decreases |text| - from
  {
    if from + |term| > |text| then None
    else if MatchesAt(text, term, from) then Some(from)
    else FirstMatch(text, term, from + 1)
  }

  /** The search finds the leftmost match: what it returns is a match,
      none lies between `from` and it, and when nothing is found there is
      no match at or after `from` at all. */
  lemma {:induction false} FirstMatchSpec(text: string, term: string, from: nat)
    ensures var r := FirstMatch(text, term, from);
            && (r.Some? ==> MatchesAt(text, term, r.value))
            && (r.Some? ==> forall j: nat :: from <= j < r.value ==> !MatchesAt(text, term, j))
            && (r.None? ==> forall j: nat :: from <= j ==> !MatchesAt(text, term, j))
    decreases |text| - from
  {
    if from + |term| <= |text| && !MatchesAt(text, term, from) {
      FirstMatchSpec(text, term, from + 1);
    }
  }

  /** The positions the `while (regex_search(...))` loop matches, starting
      at `from` and resuming each search at the end of the previous match:
      matches in increasing order that never overlap. */
  function MatchPositions(text: string, term: string, from: nat): (ps: seq<nat>)
    requires |term| > 0
    decreases |text| - from
  {
    match FirstMatch(text, term, from)
    case None => []
    case Some(i) => [i] + MatchPositions(text, term, i + |term|)
  }

  /** One round of the loop: a search that finds `v` contributes `v` and
      the search resumes after it. */
  lemma MatchPositionsStep(text: string, term: string, from: nat, v: nat)
    requires |term| > 0 && FirstMatch(text, term, from) == Some(v)
    ensures MatchPositions(text, term, from) == [v] + MatchPositions(text, term, v + |term|)
  {
  }

  /** The part of `FirstMatchSpec` most callers need: what is found is a match. */
  lemma {:induction false} FirstMatchHit(text: string, term: string, from: nat)
    ensures FirstMatch(text, term, from).Some? ==> MatchesAt(text, term, FirstMatch(text, term, from).value)
  {
    FirstMatchSpec(text, term, from);
  }

  /** Every position the scan reports is a match at or after `from`, and
      each one starts at or after the end of the previous one. */
  lemma MatchPositionsSound(text: string, term: string, from: nat)
    requires |term| > 0
    ensures var ps := MatchPositions(text, term, from);
            && (forall k :: 0 <= k < |ps| ==> from <= ps[k] && MatchesAt(text, term, ps[k]))
            && (forall k :: 0 <= k < |ps| - 1 ==> ps[k] + |term| <= ps[k + 1])
  {
    MatchPositionsHit(text, term, from);
    MatchPositionsSpaced(text, term, from);
  }

  lemma {:induction false} MatchPositionsHit(text: string, term: string, from: nat)
    requires |term| > 0
    ensures var ps := MatchPositions(text, term, from);
            forall k :: 0 <= k < |ps| ==> MatchesAt(text, term, ps[k])
    decreases |text| - from
  {
    var first := FirstMatch(text, term, from);
    if first.Some? {
      var i := first.value;
      FirstMatchHit(text, term, from);
      MatchPositionsHit(text, term, i + |term|);
      var rest := MatchPositions(text, term, i + |term|);
      var ps := MatchPositions(text, term, from);
      MatchPositionsStep(text, term, from, i);
      forall k | 0 <= k < |ps| ensures MatchesAt(text, term, ps[k]) {
        if k > 0 { assert ps[k] == rest[k - 1]; }
      }
    }
  }

  lemma {:induction false} MatchPositionsSpaced(text: string, term: string, from: nat)
    requires |term| > 0
    ensures var ps := MatchPositions(text, term, from);
            && (forall k :: 0 <= k < |ps| ==> from <= ps[k])
            && (forall k :: 0 <= k < |ps| - 1 ==> ps[k] + |term| <= ps[k + 1])
    decreases |text| - from
  {
    var first := FirstMatch(text, term, from);
    if first.Some? {
      var i := first.value;
      MatchPositionsSpaced(text, term, i + |term|);
      var rest := MatchPositions(text, term, i + |term|);
      var ps := MatchPositions(text, term, from);
      MatchPositionsStep(text, term, from, i);
      forall k | 0 <= k < |ps| ensures from <= ps[k] {
        if k > 0 { assert ps[k] == rest[k - 1]; }
      }
      forall k | 0 <= k < |ps| - 1 ensures ps[k] + |term| <= ps[k + 1] {
        assert ps[k + 1] == rest[k];
        if k > 0 { assert ps[k] == rest[k - 1]; }
      }
    }
  }

  /** How many times the loop body runs for `term`. */
  function Occurrences(text: string, term: string): nat
    requires |term| > 0
  {
    |MatchPositions(text, term, 0)|
  }

  /** No match is skipped: every match at or after `from` is found, or lies
      inside a found match (which can happen only when the term itself has
      a non-word character inside, such as "a a" in "a a a"). */
  lemma {:induction false} MatchPositionsComplete(text: string, term: string, from: nat, j: nat)
    requires |term| > 0
    requires from <= j && MatchesAt(text, term, j)
    ensures var ps := MatchPositions(text, term, from);
            j in ps || exists k :: 0 <= k < |ps| && ps[k] < j < ps[k] + |term|
    decreases |text| - from
  {
    var first := FirstMatch(text, term, from);
    FirstMatchSpec(text, term, from);
    if first.None? {
      assert false;
    }
    var i := first.value;
    var rest := MatchPositions(text, term, i + |term|);
    var ps := MatchPositions(text, term, from);
    assert ps == [i] + rest;
    if j >= i + |term| {
      MatchPositionsComplete(text, term, i + |term|, j);
      if j !in rest {
        var k :| 0 <= k < |rest| && rest[k] < j < rest[k] + |term|;
        assert ps[k + 1] == rest[k];
      }
    } else if j != i {
      assert ps[0] < j < ps[0] + |term|;
    }
  }

  /** Two matches of a term made only of word characters never overlap. */
  lemma NoOverlap(text: string, term: string, p: nat, q: nat)
    requires forall i :: 0 <= i < |term| ==> IsWordChar(term[i])
    requires MatchesAt(text, term, p) && MatchesAt(text, term, q) && p < q
    ensures p + |term| <= q
  {
    if q < p + |term| {
      assert IsWordChar(Lower(text[q - 1])) by { LowerKeepsWordChar(term[q - 1 - p]); }
      LowerKeepsWordChar(text[q - 1]);
      assert IsWordChar(Lower(text[q])) by { LowerKeepsWordChar(term[q - p]); }
      LowerKeepsWordChar(text[q]);
    }
  }

  /** For a single-word term the scan finds exactly the whole-word
      occurrences: every `\b<term>\b` match at or after `from` is counted. */
  lemma SingleWordCountsAll(text: string, term: string, from: nat, j: nat)
    requires |term| > 0 && forall i :: 0 <= i < |term| ==> IsWordChar(term[i])
    requires from <= j && MatchesAt(text, term, j)
    ensures j in MatchPositions(text, term, from)
  {
    var ps := MatchPositions(text, term, from);
    MatchPositionsComplete(text, term, from, j);
    MatchPositionsSound(text, term, from);
    if j !in ps {
      var k :| 0 <= k < |ps| && ps[k] < j < ps[k] + |term|;
      NoOverlap(text, term, ps[k], j);
    }
  }

  lemma LowerKeepsWordChar(c: char)
    ensures IsWordChar(Lower(c)) == IsWordChar(c)
  {
  }

  lemma SameWordness(a: char, b: char)
    requires Lower(a) == Lower(b)
    ensures IsWordChar(a) == IsWordChar(b)
  {
    LowerKeepsWordChar(a);
    LowerKeepsWordChar(b);
  }

  /** Matching ignores case: texts that agree up to ASCII case, searched
      for terms that agree up to ASCII case, have the same matches. */
  lemma MatchingIgnoresCase(text1: string, text2: string, term1: string, term2: string, from: nat)
    requires |text1| == |text2| && forall i :: 0 <= i < |text1| ==> Lower(text1[i]) == Lower(text2[i])
    requires |term1| == |term2| > 0 && forall i :: 0 <= i < |term1| ==> Lower(term1[i]) == Lower(term2[i])
    ensures MatchPositions(text1, term1, from) == MatchPositions(text2, term2, from)
  {
    forall p | 0 <= p < |text1| ensures IsWordChar(text1[p]) == IsWordChar(text2[p]) {
      SameWordness(text1[p], text2[p]);
    }
    forall j: nat ensures MatchesAt(text1, term1, j) == MatchesAt(text2, term2, j) {
      if j + |term1| <= |text1| {
        assert IsBoundary(text1, j) == IsBoundary(text2, j);
        assert IsBoundary(text1, j + |term1|) == IsBoundary(text2, j + |term1|);
      }
    }
    PositionsAgree(text1, text2, term1, term2, from);
  }

  lemma {:induction false} PositionsAgree(text1: string, text2: string, term1: string, term2: string, from: nat)
    requires |text1| == |text2| && |term1| == |term2| > 0
    requires forall j: nat :: MatchesAt(text1, term1, j) == MatchesAt(text2, term2, j)
    ensures MatchPositions(text1, term1, from) == MatchPositions(text2, term2, from)
    decreases |text1| - from
  {
    var first := FirstMatch(text1, term1, from);
    FirstMatchAgree(text1, text2, term1, term2, from);
    if first.Some? {
      PositionsAgree(text1, text2, term1, term2, first.value + |term1|);
    }
  }

  lemma {:induction false} FirstMatchAgree(text1: string, text2: string, term1: string, term2: string, from: nat)
    requires |text1| == |text2| && |term1| == |term2|
    requires forall j: nat :: MatchesAt(text1, term1, j) == MatchesAt(text2, term2, j)
    ensures FirstMatch(text1, term1, from) == FirstMatch(text2, term2, from)
    decreases |text1| - from
  {
    if from + |term1| <= |text1| && !MatchesAt(text1, term1, from) {
      FirstMatchAgree(text1, text2, term1, term2, from + 1);
    }
  }

  /** `hits` matches have been counted and the scan from `from` finds the
      rest: together they are all the occurrences of `term`. */
  predicate CountedUpTo(text: string, term: string, from: nat, hits: nat)
    requires |term| > 0
  {
    hits + |MatchPositions(text, term, from)| == Occurrences(text, term)
  }

  /** One round of the loop, counted: after a match at `v` the hits so far
      plus the matches still ahead make up all occurrences, and the search
      resumes strictly later. */
  lemma ScanStep(text: string, term: string, from: nat, v: nat, hits: nat)
    requires |term| > 0 && FirstMatch(text, term, from) == Some(v)
    requires CountedUpTo(text, term, from, hits)
    ensures from < v + |term| <= |text|
    ensures CountedUpTo(text, term, v + |term|, hits + 1)
  {
    FirstMatchHit(text, term, from);
    MatchPositionsStep(text, term, from, v);
  }

  /** When the search finds nothing more, every occurrence is counted. */
  lemma ScanDone(text: string, term: string, from: nat, hits: nat)
    requires |term| > 0 && FirstMatch(text, term, from) == None
    requires CountedUpTo(text, term, from, hits)
    ensures hits == Occurrences(text, term)
  {
  }

  // ---------------------------------------------------------------------
  // The two maps after a scan of the whole keyword list
  // ---------------------------------------------------------------------

  /** `n` copies of `t`. */
  function Repeat(t: string, n: nat): (r: seq<string>)
    ensures |r| == n && forall i :: 0 <= i < n ==> r[i] == t
  {
    if n == 0 then [] else Repeat(t, n - 1) + [t]
  }

  /** `categoryCount[c]++` done `n` times (no entry is made when n = 0). */
  function Bump(m: map<string, int>, c: string, n: nat): map<string, int>
  {
    if n == 0 then m else m[c := (if c in m then m[c] else 0) + n]
  }

  /** `matchedKeywordsByCategory[c].push_back(...)` for each of `items`. */
  function Append(m: map<string, seq<string>>, c: string, items: seq<string>): map<string, seq<string>>
  {
    if items == [] then m else m[c := (if c in m then m[c] else []) + items]
  }

  /** `categoryCount[c]++`: `operator[]` inserts a zero entry first when
      `c` is missing. */
  function Inc(m: map<string, int>, c: string): (r: map<string, int>)
    ensures r.Keys == m.Keys + {c}
    ensures r[c] == (if c in m then m[c] else 0) + 1
    ensures forall d :: d in m && d != c ==> r[d] == m[d]
  {
    m[c := (if c in m then m[c] else 0) + 1]
  }

  /** `matchedKeywordsByCategory[c].push_back(t)`, inserting an empty list
      first when `c` is missing. */
  function Push(m: map<string, seq<string>>, c: string, t: string): (r: map<string, seq<string>>)
    ensures r.Keys == m.Keys + {c}
    ensures r[c] == (if c in m then m[c] else []) + [t]
    ensures forall d :: d in m && d != c ==> r[d] == m[d]
  {
    m[c := (if c in m then m[c] else []) + [t]]
  }

  lemma BumpStep(m: map<string, int>, c: string, n: nat)
    ensures Bump(m, c, n + 1) == Inc(Bump(m, c, n), c)
  {
  }

  lemma AppendStep(m: map<string, seq<string>>, c: string, t: string, n: nat)
    ensures Append(m, c, Repeat(t, n + 1)) == Push(Append(m, c, Repeat(t, n)), c, t)
  {
    var base := if c in m then m[c] else [];
    assert Repeat(t, n + 1) == Repeat(t, n) + [t];
    if n == 0 {
      assert Repeat(t, 0) == [];
      assert base + Repeat(t, 1) == base + [t];
    } else {
      assert base + Repeat(t, n + 1) == (base + Repeat(t, n)) + [t];
    }
  }

  /** `categoryCount` after scanning `text` for the entries `kws`, in order,
      from empty maps. */
  function ScanCounts(kws: seq<KeywordEntry>, text: string): map<string, int>
    requires WordTerms(kws)
    decreases |kws|
  {
    if kws == [] then map[]
    else
      var e := kws[|kws| - 1];
      Bump(ScanCounts(kws[..|kws| - 1], text), e.category, Occurrences(text, e.term))
  }

  /** `matchedKeywordsByCategory` after the same scan. */
  function ScanLists(kws: seq<KeywordEntry>, text: string): map<string, seq<string>>
    requires WordTerms(kws)
    decreases |kws|
  {
    if kws == [] then map[]
    else
      var e := kws[|kws| - 1];
      Append(ScanLists(kws[..|kws| - 1], text), e.category, Repeat(e.term, Occurrences(text, e.term)))
  }

  /** The invariant tying the two maps together: the same categories, and
      each category's count is the length of its list, at least 1. */
  predicate Consistent(count: map<string, int>, lists: map<string, seq<string>>)
  {
    && count.Keys == lists.Keys
    && forall c :: c in count ==> count[c] == |lists[c]| >= 1
  }

  /** A scan keeps the two maps consistent. */
  lemma {:induction false} ScanConsistent(kws: seq<KeywordEntry>, text: string)
    requires WordTerms(kws)
    ensures Consistent(ScanCounts(kws, text), ScanLists(kws, text))
    decreases |kws|
  {
    if kws != [] {
      ScanConsistent(kws[..|kws| - 1], text);
    }
  }

  /** What a category's list holds, defined independently of the maps: the
      terms of the entries of that category, in keyword-list order, each
      repeated once per occurrence in the text. */
  function CategoryTerms(kws: seq<KeywordEntry>, text: string, c: string): seq<string>
    requires WordTerms(kws)
    decreases |kws|
  {
    if kws == [] then []
    else CategoryTerms(kws[..|kws| - 1], text, c) + EntryTerms(kws[|kws| - 1], text, c)
  }

  /** The contribution of one entry to category `c`'s list. */
  function EntryTerms(e: KeywordEntry, text: string, c: string): seq<string>
    requires WordTerm(e.term)
  {
    if e.category == c then Repeat(e.term, Occurrences(text, e.term)) else []
  }

  /** The list of a category after the scan is exactly `CategoryTerms`, and
      the category appears in the maps exactly when that is non-empty. So a
      term listed under two categories is counted in each, and a category's
      list keeps keyword-list order with one copy per occurrence. */
  lemma {:induction false} ScanListsByCategory(kws: seq<KeywordEntry>, text: string, c: string)
    requires WordTerms(kws)
    ensures c in ScanLists(kws, text) <==> CategoryTerms(kws, text, c) != []
    ensures c in ScanLists(kws, text) ==> ScanLists(kws, text)[c] == CategoryTerms(kws, text, c)
    decreases |kws|
  {
    if kws != [] {
      ScanListsByCategory(kws[..|kws| - 1], text, c);
    }
  }

  /** The report the matcher renders after scanning `text` for `kws`. */
  function KeywordAnalysis(kws: seq<KeywordEntry>, text: string): (r: string)
    requires WordTerms(kws)
    ensures StartsWith(r, Header)
  {
    ScanConsistent(kws, text);
    Render(ScanCounts(kws, text), ScanLists(kws, text))
  }

  /** The scan records no category exactly when no term of the list
      occurs in the text. */
  lemma {:induction false} ScanListsEmpty(kws: seq<KeywordEntry>, text: string)
    requires WordTerms(kws)
    ensures ScanLists(kws, text) == map[] <==> forall e :: e in kws ==> Occurrences(text, e.term) == 0
    decreases |kws|
  {
    if kws != [] {
      var init, e := kws[..|kws| - 1], kws[|kws| - 1];
      ScanListsEmpty(init, text);
      assert kws == init + [e];
      var n := Occurrences(text, e.term);
      if n > 0 {
        assert Repeat(e.term, n) != [];
        assert e.category in ScanLists(kws, text);
      } else {
        assert ScanLists(kws, text) == ScanLists(init, text);
      }
    }
  }

  /** The report is the "no keywords matched" notice exactly when no term
      of the list occurs in the text. */
  lemma NoMatchReport(kws: seq<KeywordEntry>, text: string)
    requires WordTerms(kws)
    ensures KeywordAnalysis(kws, text) == Header + NoMatches
        <==> forall e :: e in kws ==> Occurrences(text, e.term) == 0
  {
    ScanConsistent(kws, text);
    ScanListsEmpty(kws, text);
    RenderEmpty(ScanCounts(kws, text), ScanLists(kws, text));
  }

  // ---------------------------------------------------------------------
  // The matcher object
  // ---------------------------------------------------------------------

  class KeywordMatcher {
    /** `keywordList`: the dictionary as last fetched. */
    var keywordList: seq<KeywordEntry>
    /** `categoryCount`. */
    var categoryCount: map<string, int>
    /** `matchedKeywordsByCategory`. */
    var matchedKeywordsByCategory: map<string, seq<string>>

    ghost predicate Valid()
      reads this
    {
      Consistent(categoryCount, matchedKeywordsByCategory)
    }

    constructor()
      ensures Valid()
      ensures keywordList == [] && categoryCount == map[] && matchedKeywordsByCategory == map[]
    {
      keywordList := [];
      categoryCount := map[];
      matchedKeywordsByCategory := map[];
    }

    /** `loadKeywords()`: when the store is reachable (`connected`) the list
        it returns (`fetched`) replaces the dictionary, and loading succeeds
        when that list is non-empty. The match maps are not touched. */
    method LoadKeywords(connected: bool, fetched: seq<KeywordEntry>) returns (ok: bool)
      modifies this
      ensures ok <==> connected && fetched != []
      ensures keywordList == (if connected then fetched else old(keywordList))
      ensures categoryCount == old(categoryCount)
      ensures matchedKeywordsByCategory == old(matchedKeywordsByCategory)
    {
      if !connected {
        return false;
      }
      keywordList := fetched;
      if |keywordList| == 0 {
        return false;
      }
      return true;
    }

    /** `regex_search` from `from`. */
    static method Search(text: string, term: string, from: nat) returns (r: Option<nat>)
      ensures r == FirstMatch(text, term, from)
    {
      var i := from;
      while i + |term| <= |text|
        invariant from <= i
        invariant FirstMatch(text, term, from) == FirstMatch(text, term, i)
        decreases |text| - i
      {
        if MatchesAt(text, term, i) {
          return Some(i);
        }
        i := i + 1;
      }
      return None;
    }

    /** `findMatches(text)`. With an empty dictionary nothing changes, so
        earlier results survive. Otherwise both maps are rebuilt from empty:
        the new state depends only on the dictionary and `text`. */
    method FindMatches(text: string)
      requires Valid() && WordTerms(keywordList)
      modifies this
      ensures Valid()
      ensures keywordList == old(keywordList)
      ensures old(keywordList) == [] ==>
                categoryCount == old(categoryCount)
                && matchedKeywordsByCategory == old(matchedKeywordsByCategory)
      ensures old(keywordList) != [] ==>
                categoryCount == ScanCounts(keywordList, text)
                && matchedKeywordsByCategory == ScanLists(keywordList, text)
    {
      var kws := keywordList;
      if |kws| == 0 {
        return;
      }
      categoryCount := map[];
      matchedKeywordsByCategory := map[];
      for n := 0 to |kws|
        invariant keywordList == kws
        invariant categoryCount == ScanCounts(kws[..n], text)
        invariant matchedKeywordsByCategory == ScanLists(kws[..n], text)
      {
        MatchTerm(text, kws[n].term, kws[n].category);
        assert kws[..n + 1][..n] == kws[..n];
      }
      assert kws[..|kws|] == kws;
      ScanConsistent(kws, text);
    }

    /** The body of the loop over the keyword list: every match of `keyword`
        in `text`, found left to right, adds one to the category's count and
        appends the keyword to the category's list. */
    method MatchTerm(text: string, keyword: string, category: string)
      requires |keyword| > 0
      modifies this
      ensures keywordList == old(keywordList)
      ensures categoryCount == Bump(old(categoryCount), category, Occurrences(text, keyword))
      ensures matchedKeywordsByCategory
              == Append(old(matchedKeywordsByCategory), category, Repeat(keyword, Occurrences(text, keyword)))
    {
      var counts, lists := categoryCount, matchedKeywordsByCategory;
      var hits: nat := 0;
      var searchStart: nat := 0;
      var match_ := Search(text, keyword, searchStart);
      while match_.Some?
        invariant keywordList == old(keywordList)
        invariant categoryCount == Bump(counts, category, hits)
        invariant matchedKeywordsByCategory == Append(lists, category, Repeat(keyword, hits))
        invariant match_ == FirstMatch(text, keyword, searchStart)
        invariant CountedUpTo(text, keyword, searchStart, hits)
        decreases |text| - searchStart
      {
        var found := match_.value;
        Record(category, keyword, counts, lists, hits);
        ScanStep(text, keyword, searchStart, found, hits);
        hits, searchStart := hits + 1, found + |keyword|;
        match_ := Search(text, keyword, searchStart);
      }
      ScanDone(text, keyword, searchStart, hits);
    }

    /** One match recorded: `categoryCount[category]++` and
        `matchedKeywordsByCategory[category].push_back(keyword)`, which takes
        the maps from `hits` matches past `counts` and `lists` to `hits + 1`. */
    method Record(category: string, keyword: string, ghost counts: map<string, int>,
                  ghost lists: map<string, seq<string>>, ghost hits: nat)
      requires categoryCount == Bump(counts, category, hits)
      requires matchedKeywordsByCategory == Append(lists, category, Repeat(keyword, hits))
      modifies this
      ensures keywordList == old(keywordList)
      ensures categoryCount == Bump(counts, category, hits + 1)
      ensures matchedKeywordsByCategory == Append(lists, category, Repeat(keyword, hits + 1))
    {
      BumpStep(counts, category, hits);
      AppendStep(lists, category, keyword, hits);
      categoryCount := Inc(categoryCount, category);
      matchedKeywordsByCategory := Push(matchedKeywordsByCategory, category, keyword);
    }

    /** `getKeywordAnalysis()`. */
    function GetKeywordAnalysis(): (r: string)
      reads this
      requires Valid()
      ensures StartsWith(r, Header)
    {
      Render(categoryCount, matchedKeywordsByCategory)
    }
  }
}
