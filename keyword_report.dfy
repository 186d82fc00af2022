/** The keyword report of `KeywordMatcher::getKeywordAnalysis`: a pure
    rendering of the matcher's two maps, `categoryCount` and
    `matchedKeywordsByCategory`. Both are `std::map`s, so categories, and the
    terms within a category, come out in ascending order. */
module KeywordReport {
  import opened Strings

  const Header := "KEYWORD ANALYSIS RESULTS:\n=========================\n"
  const NoMatches := "No keywords matched in the privacy policy.\n"

  // ---------------------------------------------------------------------
  // Term frequencies within one category (the local `keywordFreq` map)
  // ---------------------------------------------------------------------

  /** Frequencies of the terms of one category's list, built by
      incrementing one entry per list element: the keys are the distinct
      terms and each value is the term's multiplicity in the list. */
  function Freq(terms: seq<string>): (f: map<string, int>)
    ensures forall t :: t in f <==> t in terms
    ensures forall t :: t in f ==> f[t] == multiset(terms)[t] >= 1
    decreases |terms|
  {
    if terms == [] then map[]
    else
      var init := terms[..|terms| - 1];
      var t := terms[|terms| - 1];
      var f := Freq(init);
      assert terms == init + [t];
      f[t := (if t in f then f[t] else 0) + 1]
  }

  /** One entry of the term list: the bare term, or `term(Nx)` when the
      term was matched N > 1 times. */
  function Item(t: string, n: int): string
  {
    if n > 1 then t + "(" + IntToString(n) + "x)" else t
  }

  /** The entries for the terms `ts`, in the order given. */
  function Items(ts: seq<string>, freq: map<string, int>): (r: seq<string>)
    requires forall t :: t in ts ==> t in freq
    ensures |r| == |ts|
    ensures forall i :: 0 <= i < |ts| ==> r[i] == Item(ts[i], freq[ts[i]])
  {
    if ts == [] then [] else [Item(ts[0], freq[ts[0]])] + Items(ts[1..], freq)
  }

  /** Entries separated by ", ". */
  function Join(items: seq<string>): string
  {
    if items == [] then ""
    else if |items| == 1 then items[0]
    else items[0] + ", " + Join(items[1..])
  }

  /** The deduplicated, counted, ascending term list of one category. */
  function TermList(terms: seq<string>): string
  {
    var freq := Freq(terms);
    Join(Items(SortedKeys(freq.Keys), freq))
  }

  // ---------------------------------------------------------------------
  // Sections and the whole report
  // ---------------------------------------------------------------------

  /** The three lines of one category's section, preceded by a blank line. */
  function Section(category: string, count: int, terms: seq<string>): string
  {
    CategoryLine(category) + CountLine(count) + TermsLine(terms)
  }

  function CategoryLine(category: string): string
  {
    "\n" + category + ":\n"
  }

  const CountLabel := "  Occurrences: "

  function CountLine(count: int): string
  {
    CountLabel + IntToString(count) + "\n"
  }

  function TermsLine(terms: seq<string>): string
  {
    "  Keywords found: " + TermList(terms) + "\n"
  }

  /** The sections of the categories `cats`, in the order given. */
  function Sections(cats: seq<string>, count: map<string, int>, matched: map<string, seq<string>>): (r: seq<string>)
    requires forall c :: c in cats ==> c in matched && c in count
    ensures |r| == |cats|
    ensures forall i :: 0 <= i < |cats| ==> r[i] == Section(cats[i], count[cats[i]], matched[cats[i]])
  {
    seq(|cats|, i requires 0 <= i < |cats| => Section(cats[i], count[cats[i]], matched[cats[i]]))
  }

  /** The concatenation of `parts`. */
  function Concat(parts: seq<string>): string
  {
    if parts == [] then "" else parts[0] + Concat(parts[1..])
  }

  lemma {:induction false} ConcatSplit(parts: seq<string>, k: nat)
    requires k < |parts|
    ensures Concat(parts) == Concat(parts[..k]) + parts[k] + Concat(parts[k + 1..])
    decreases k
  {
    if k == 0 {
      assert parts[..0] == [];
      assert parts[1..] == parts[k + 1..];
    } else {
      ConcatSplit(parts[1..], k - 1);
      assert parts[1..][..k - 1] == parts[1..k];
      assert parts[1..][k..] == parts[k + 1..];
      assert parts[..k][0] == parts[0] && parts[..k][1..] == parts[1..k];
    }
  }

  /** `getKeywordAnalysis()`. The count of every listed category is read
      with `categoryCount.at`, so every key of `matched` must be a key of
      `count`. The report always begins with the two-line header. */
  function Render(count: map<string, int>, matched: map<string, seq<string>>): (r: string)
    requires matched.Keys <= count.Keys
    ensures StartsWith(r, Header)
  {
    if |matched| == 0 then Header + NoMatches
    else Header + Concat(Sections(SortedKeys(matched.Keys), count, matched))
  }

  // ---------------------------------------------------------------------
  // Properties of the report
  // ---------------------------------------------------------------------

  /** The report is the header followed by the "no matches" notice exactly
      when no category matched: otherwise a line break follows the header. */
  lemma RenderEmpty(count: map<string, int>, matched: map<string, seq<string>>)
    requires matched.Keys <= count.Keys
    ensures matched == map[] <==> Render(count, matched) == Header + NoMatches
  {
    if matched != map[] {
      var body := Concat(Sections(SortedKeys(matched.Keys), count, matched));
      assert (Header + body)[|Header|] == '\n';
      assert (Header + NoMatches)[|Header|] == 'N';
    }
  }

  /** Layout of a non-empty report: after the header come the sections of
      all matched categories in ascending category order (any strictly
      ascending listing of the categories gives the same report), and the
      k-th section is that of the k-th smallest category. */
  lemma RenderLayout(count: map<string, int>, matched: map<string, seq<string>>,
                     cats: seq<string>, k: nat)
    requires matched.Keys <= count.Keys && matched != map[]
    requires StrictlyAscending(cats) && (forall c :: c in cats <==> c in matched)
    requires k < |cats|
    ensures var parts := Sections(cats, count, matched);
            (Render(count, matched)
             == Header
              + (Concat(parts[..k])
                 + Section(cats[k], count[cats[k]], matched[cats[k]])
                 + Concat(parts[k + 1..])))
  {
    AscendingUnique(cats, SortedKeys(matched.Keys));
    ConcatSplit(Sections(cats, count, matched), k);
  }

  /** The term list of a category names each distinct term once, in
      ascending order, with its number of occurrences in the category's
      list: for any strictly ascending listing `ts` of the distinct terms,
      it is `Join` of one entry per element of `ts`, and the i-th entry is
      that of `ts[i]` with its multiplicity. */
  lemma TermListLayout(terms: seq<string>, ts: seq<string>)
    requires StrictlyAscending(ts) && (forall t :: t in ts <==> t in terms)
    ensures forall t :: t in ts ==> t in Freq(terms)
    ensures TermList(terms) == Join(Items(ts, Freq(terms)))
    ensures forall i :: 0 <= i < |ts| ==> Items(ts, Freq(terms))[i] == Item(ts[i], multiset(terms)[ts[i]])
  {
    var freq := Freq(terms);
    AscendingUnique(ts, SortedKeys(freq.Keys));
    forall i | 0 <= i < |ts| ensures Items(ts, freq)[i] == Item(ts[i], multiset(terms)[ts[i]]) {
      assert ts[i] in ts;
    }
  }

  /** An entry carries the `(Nx)` suffix exactly when the term occurred
      more than once; otherwise it is the bare term. */
  lemma ItemSuffix(t: string, n: int)
    requires n >= 1
    ensures n == 1 ==> Item(t, n) == t
    ensures n > 1 ==> StartsWith(Item(t, n), t) && |Item(t, n)| > |t| + 3
                      && EndsWith(Item(t, n), "x)")
    ensures n > 1 ==> var s := Item(t, n);
                      var d := s[|t| + 1..|s| - 2];
                      && s[|t|] == '('
                      && (forall i :: 0 <= i < |d| ==> IsDigit(d[i]))
                      && DigitsValue(d) == n
  {
    if n > 1 {
      var s := Item(t, n);
      var digits := NatToString(n);
      assert s == t + (['('] + (digits + "x)"));
      ConcatMiddle(t + ['('], digits, "x)");
      assert t + ['('] + (digits + "x)") == s;
      assert (t + ['('])[|t|] == '(';
      NatToStringRoundTrip(n);
    }
  }

  /** The count line carries the category's count in decimal between the
      fixed label and the line break, with a minus sign for a negative
      count. */
  lemma CountLineValue(count: int)
    ensures var l := CountLine(count);
            && StartsWith(l, CountLabel) && EndsWith(l, "\n")
            && (count >= 0 ==> var d := l[|CountLabel|..|l| - 1];
                               (forall i :: 0 <= i < |d| ==> IsDigit(d[i])) && DigitsValue(d) == count)
            && (count < 0 ==> var d := l[|CountLabel| + 1..|l| - 1];
                              l[|CountLabel|] == '-'
                              && (forall i :: 0 <= i < |d| ==> IsDigit(d[i])) && DigitsValue(d) == -count)
  {
    var l := CountLine(count);
    var num := IntToString(count);
    ConcatMiddle(CountLabel, num, "\n");
    assert l == CountLabel + (num + "\n");
    if count >= 0 {
      NatToStringRoundTrip(count);
    } else {
      assert num == "-" + NatToString(-count);
      assert l[|CountLabel| + 1..|l| - 1] == NatToString(-count);
      NatToStringRoundTrip(-count);
    }
  }
}
