/** Deciding the output type: the teacher's choice, the interpretation's constraint, or the best ranked format.

    Scores are whole ten-thousandths: candidate scores are rounded to them and the weights are on them. */
module Decision {
  import opened Wrappers
  import opened Fingerprint

  datatype Format = Docx | Pdf | Pptx

  function Name(f: Format): (r: string)
    ensures r in OUTPUT_TYPES && r != "auto"
  {
    assert OUTPUT_TYPES[1] == "docx" && OUTPUT_TYPES[2] == "pdf" && OUTPUT_TYPES[3] == "pptx";
    match f case Docx => "docx" case Pdf => "pdf" case Pptx => "pptx"
  }

  function FormatOf(name: string): Option<Format> {
    if name == "docx" then Some(Docx) else if name == "pdf" then Some(Pdf) else if name == "pptx" then Some(Pptx) else None
  }

  /** The three names, and no other text, stand for a format. */
  lemma FormatNames(f: Format, name: string)
    ensures FormatOf(name) == Some(f) <==> name == Name(f)
  {
  }

  /** The lower goes first when scores tie. */
  function TypePriority(f: Format): nat {
    match f case Pptx => 0 case Pdf => 1 case Docx => 2
  }

  datatype Signal = Signal(format: Format, reasonCode: string, weight: int, keyword: Option<string>)

  datatype Ranked = Ranked(format: Format, score: int, candidateScore: int, reasonCode: string, signals: seq<Signal>)

  datatype Candidate = Candidate(kind: string, score: real)

  /** What the decision reads from an interpretation; the haystack is already in lower case. */
  datatype Interpretation = Interpretation(
    haystack: string, candidates: seq<Candidate>, highVisualDensity: bool, hasAssets: bool, constraint: Option<string>)

  datatype SignalDef = SignalDef(format: Format, weight: int, reasonCode: string, keywords: seq<string>)

  const KEYWORD_SIGNALS: seq<SignalDef> := [
    SignalDef(Pptx, 3500, "slide_intent_detected",
              ["slide", "slides", "deck", "presentasi", "presentation", "slideshow", "ppt", "pptx"]),
    SignalDef(Pdf, 2500, "printable_intent_detected", ["handout", "printable", "print", "cetak", "pdf", "booklet"]),
    SignalDef(Docx, 2500, "editable_document_intent_detected",
              ["editable", "edit", "docx", "word", "worksheet", "lembar kerja", "template"])]

  const DENSITY_SIGNAL := Signal(Pptx, "visual_density_signal", 1200, None)

  /** Ten-thousandths, halves rounded away from zero. */
  function Rounded(score: real): int {
    if score >= 0.0 then (score * 10000.0 + 0.5).Floor else -(0.5 - score * 10000.0).Floor
  }

  /** No whole number of ten-thousandths is nearer, and of two that are as near it is the one further from zero. */
  lemma RoundedIsNearest(score: real)
    ensures var x, n := score * 10000.0, Rounded(score) as real;
      && n - 0.5 <= x <= n + 0.5
      && (x == n + 0.5 ==> n < 0.0) && (x == n - 0.5 ==> n > 0.0)
  {
  }

  // ---------------------------------------------------------------- the tolerance comparator

  datatype Ordering = Less | Equal | Greater

  function CompareInts(a: int, b: int): Ordering {
    if a < b then Less else if a > b then Greater else Equal
  }

  /** How the sort compares two formats with real scores: a higher score first, and within the tolerance the priority. */
  function Compare(f: Format, a: real, g: Format, b: real): Ordering {
    var diff := if a < b then b - a else a - b;
    if diff >= 0.0001 then (if b < a then Less else Greater)
    else CompareInts(TypePriority(f), TypePriority(g))
  }

  predicate Before(a: Ranked, b: Ranked) {
    a.score > b.score || (a.score == b.score && TypePriority(a.format) < TypePriority(b.format))
  }

  /** On whole ten-thousandths the tolerance only ever ties equal scores, and the comparison is a strict total order of
      different formats. */
  lemma ToleranceOnGrid(a: Ranked, b: Ranked, c: Ranked)
    ensures Compare(a.format, a.score as real / 10000.0, b.format, b.score as real / 10000.0) == Less <==> Before(a, b)
    ensures !Before(a, a)
    ensures a.format != b.format ==> (Before(a, b) <==> !Before(b, a))
    ensures Before(a, b) && Before(b, c) ==> Before(a, c)
  {
  }

  /** Between them it is not even transitive: three scores can be in a cycle. */
  lemma ToleranceOffGrid()
    ensures Compare(Pptx, 0.0, Pdf, 0.00006) == Less
    ensures Compare(Pdf, 0.00006, Docx, 0.00012) == Less
    ensures Compare(Docx, 0.00012, Pptx, 0.0) == Less
  {
  }

  // ---------------------------------------------------------------- the signals

  predicate Contains(s: string, t: string) {
    |t| <= |s| && (s[..|t|] == t || (|s| > 0 && Contains(s[1..], t)))
  }

  predicate StandsAt(s: string, t: string, k: nat) {
    k + |t| <= |s| && s[k..k + |t|] == t
  }

  /** The text `t` stands somewhere in `s`. */
  predicate Inside(s: string, t: string) {
    exists k: nat :: k <= |s| && StandsAt(s, t, k)
  }

  /** The search finds a text exactly when it stands somewhere. */
  lemma ContainsIff(s: string, t: string)
    ensures Contains(s, t) <==> Inside(s, t)
  {
    if Contains(s, t) { var k := PlaceOf(s, t); }
    if k: nat :| k <= |s| && StandsAt(s, t, k) { FoundAt(s, t, k); }
  }

  lemma {:induction false} PlaceOf(s: string, t: string) returns (k: nat)
    requires Contains(s, t)
    ensures k <= |s| && StandsAt(s, t, k)
  {
    if s[..|t|] == t {
      k := 0;
    } else {
      k := PlaceOf(s[1..], t);
      Shifted(s, t, k);
      k := k + 1;
    }
  }

  lemma {:induction false} FoundAt(s: string, t: string, k: nat)
    requires StandsAt(s, t, k)
    ensures Contains(s, t)
  {
    if k > 0 {
      Shifted(s, t, k - 1);
      FoundAt(s[1..], t, k - 1);
    }
  }

  lemma Shifted(s: string, t: string, k: nat)
    requires |s| > 0
    ensures StandsAt(s[1..], t, k) <==> StandsAt(s, t, k + 1)
  {
    if k + 1 + |t| <= |s| { assert s[1..][k..k + |t|] == s[k + 1..k + 1 + |t|]; }
  }

  /** How many keywords come before the first one that the haystack contains. */
  function FirstMatch(haystack: string, keywords: seq<string>): (n: nat)
    ensures n <= |keywords|
    ensures n < |keywords| ==> Contains(haystack, keywords[n])
    ensures forall j | 0 <= j < n :: !Contains(haystack, keywords[j])
  {
    if |keywords| == 0 || Contains(haystack, keywords[0]) then 0 else 1 + FirstMatch(haystack, keywords[1..])
  }

  function FirstKeyword(haystack: string, keywords: seq<string>): Option<string> {
    var n := FirstMatch(haystack, keywords);
    if n < |keywords| then Some(keywords[n]) else None
  }

  function SignalsOf(haystack: string, defs: seq<SignalDef>): seq<Signal> {
    if |defs| == 0 then []
    else
      var def := defs[|defs| - 1];
      var keyword := FirstKeyword(haystack, def.keywords);
      SignalsOf(haystack, defs[..|defs| - 1])
        + if keyword.Some? then [Signal(def.format, def.reasonCode, def.weight, keyword)] else []
  }

  function Signals(i: Interpretation): seq<Signal> {
    SignalsOf(i.haystack, KEYWORD_SIGNALS) + if i.highVisualDensity && i.hasAssets then [DENSITY_SIGNAL] else []
  }

  /** The keyword is the first one of the list that stands in the text. */
  predicate FirstInside(text: string, keywords: seq<string>, keyword: string) {
    exists n :: 0 <= n < |keywords| && keywords[n] == keyword && Inside(text, keyword)
      && forall j | 0 <= j < n :: !Inside(text, keywords[j])
  }

  lemma FirstKeywordIff(text: string, keywords: seq<string>, keyword: string)
    ensures FirstKeyword(text, keywords) == Some(keyword) <==> FirstInside(text, keywords, keyword)
    ensures FirstKeyword(text, keywords).None? <==> forall j | 0 <= j < |keywords| :: !Inside(text, keywords[j])
  {
    forall j | 0 <= j < |keywords| ensures Contains(text, keywords[j]) <==> Inside(text, keywords[j]) {
      ContainsIff(text, keywords[j]);
    }
  }

  /** The signal of a format for the first of its keywords that stands in the haystack. */
  predicate IsSignalOf(haystack: string, d: SignalDef, signal: Signal) {
    && signal.keyword.Some? && FirstInside(haystack, d.keywords, signal.keyword.value)
    && signal == Signal(d.format, d.reasonCode, d.weight, signal.keyword)
  }

  /** A format has a signal of its keywords exactly when one of them stands in the haystack, and it names the first one. */
  lemma {:induction false} SignalsIff(haystack: string, defs: seq<SignalDef>, signal: Signal)
    ensures signal in SignalsOf(haystack, defs) <==> exists d :: d in defs && IsSignalOf(haystack, d, signal)
  {
    if |defs| > 0 {
      var before, def := defs[..|defs| - 1], defs[|defs| - 1];
      assert defs == before + [def];
      SignalsIff(haystack, before, signal);
      IsSignalIff(haystack, def, signal);
      hide FirstKeyword, IsSignalOf;
      if d :| d in defs && IsSignalOf(haystack, d, signal) { assert d == def || d in before; }
      assert def in defs && forall d | d in before :: d in defs;
    }
  }

  lemma IsSignalIff(haystack: string, d: SignalDef, signal: Signal)
    ensures var keyword := FirstKeyword(haystack, d.keywords);
      IsSignalOf(haystack, d, signal) <==> keyword.Some? && signal == Signal(d.format, d.reasonCode, d.weight, keyword)
  {
    var keyword := FirstKeyword(haystack, d.keywords);
    if keyword.Some? { FirstKeywordIff(haystack, d.keywords, keyword.value); }
    if signal.keyword.Some? { FirstKeywordIff(haystack, d.keywords, signal.keyword.value); }
  }

  /** The signals of an interpretation: those of the keywords, and the density signal exactly for a high density with
      assets. */
  lemma SignalsTell(i: Interpretation, signal: Signal)
    ensures signal in Signals(i) <==>
      || (signal == DENSITY_SIGNAL && i.highVisualDensity && i.hasAssets)
      || exists d :: d in KEYWORD_SIGNALS && IsSignalOf(i.haystack, d, signal)
  {
    SignalsIff(i.haystack, KEYWORD_SIGNALS, signal);
  }

  method KeywordSignals(i: Interpretation) returns (signals: seq<Signal>)
    ensures signals == Signals(i)
  {
    signals := [];
    for d := 0 to |KEYWORD_SIGNALS|
      invariant signals == SignalsOf(i.haystack, KEYWORD_SIGNALS[..d])
    {
      var def := KEYWORD_SIGNALS[d];
      var keyword := MatchKeyword(i.haystack, def.keywords);
      if keyword.Some? {
        signals := signals + [Signal(def.format, def.reasonCode, def.weight, keyword)];
      }
      assert KEYWORD_SIGNALS[..d + 1][..d] == KEYWORD_SIGNALS[..d];
    }
    assert KEYWORD_SIGNALS[..|KEYWORD_SIGNALS|] == KEYWORD_SIGNALS;
    if i.highVisualDensity && i.hasAssets {
      signals := signals + [DENSITY_SIGNAL];
    }
  }

  /** The inner loop, which stops at the first keyword that is found. */
  method MatchKeyword(haystack: string, keywords: seq<string>) returns (r: Option<string>)
    ensures r == FirstKeyword(haystack, keywords)
  {
    var k := 0;
    while k < |keywords|
      invariant 0 <= k <= FirstMatch(haystack, keywords)
    {
      if Contains(haystack, keywords[k]) { return Some(keywords[k]); }
      k := k + 1;
    }
    return None;
  }

  // ---------------------------------------------------------------- the scores

  /** The rounded scores of a format's candidates together; candidates of other kinds do not count. */
  function CandidateTotal(cs: seq<Candidate>, f: Format): int {
    if |cs| == 0 then 0
    else
      var c := cs[|cs| - 1];
      CandidateTotal(cs[..|cs| - 1], f) + if FormatOf(c.kind) == Some(f) then Rounded(c.score) else 0
  }

  /** The rounded score of a format's last candidate. */
  function LastCandidate(cs: seq<Candidate>, f: Format): int {
    if |cs| == 0 then 0
    else
      var c := cs[|cs| - 1];
      if FormatOf(c.kind) == Some(f) then Rounded(c.score) else LastCandidate(cs[..|cs| - 1], f)
  }

  function SignalTotal(ss: seq<Signal>): int {
    if |ss| == 0 then 0 else SignalTotal(ss[..|ss| - 1]) + ss[|ss| - 1].weight
  }

  function SignalsFor(ss: seq<Signal>, f: Format): seq<Signal> {
    if |ss| == 0 then []
    else SignalsFor(ss[..|ss| - 1], f) + if ss[|ss| - 1].format == f then [ss[|ss| - 1]] else []
  }

  /** A format with the scores of its candidates and the weights of its signals; the last signal gives the reason. */
  function Entry(cs: seq<Candidate>, ss: seq<Signal>, f: Format): Ranked {
    var mine := SignalsFor(ss, f);
    Ranked(f, CandidateTotal(cs, f) + SignalTotal(mine), LastCandidate(cs, f),
           if |mine| == 0 then "highest_candidate_score" else mine[|mine| - 1].reasonCode, mine)
  }

  /** Every format has its entry. */
  predicate Accumulated(scores: map<Format, Ranked>, cs: seq<Candidate>, ss: seq<Signal>) {
    forall f: Format :: f in scores && scores[f] == Entry(cs, ss, f)
  }

  function WithCandidate(entry: Ranked, score: int): Ranked {
    entry.(score := entry.score + score, candidateScore := score)
  }

  function WithSignal(entry: Ranked, signal: Signal): Ranked {
    entry.(score := entry.score + signal.weight, reasonCode := signal.reasonCode, signals := entry.signals + [signal])
  }

  lemma CandidateStep(cs: seq<Candidate>, n: nat, f: Format)
    requires n < |cs|
    ensures Entry(cs[..n + 1], [], f) ==
      if FormatOf(cs[n].kind) == Some(f) then WithCandidate(Entry(cs[..n], [], f), Rounded(cs[n].score))
      else Entry(cs[..n], [], f)
  {
    assert cs[..n + 1][..n] == cs[..n];
  }

  lemma SignalStep(cs: seq<Candidate>, ss: seq<Signal>, n: nat, f: Format)
    requires n < |ss|
    ensures ss[n].format != f ==> Entry(cs, ss[..n + 1], f) == Entry(cs, ss[..n], f)
    ensures ss[n].format == f ==> Entry(cs, ss[..n + 1], f) == WithSignal(Entry(cs, ss[..n], f), ss[n])
  {
    assert ss[..n + 1][..n] == ss[..n];
    var before, after := SignalsFor(ss[..n], f), SignalsFor(ss[..n + 1], f);
    if ss[n].format == f {
      assert after == before + [ss[n]];
      assert after[..|before|] == before;
    } else {
      assert after == before;
    }
  }

  method AddCandidate(scores: map<Format, Ranked>, ghost cs: seq<Candidate>, ghost n: nat, c: Candidate)
    returns (r: map<Format, Ranked>)
    requires n < |cs| && cs[n] == c && Accumulated(scores, cs[..n], [])
    ensures Accumulated(r, cs[..n + 1], [])
  {
    hide Entry, SignalTotal, SignalsFor, CandidateTotal, LastCandidate;
    forall f ensures Entry(cs[..n + 1], [], f) ==
      (if FormatOf(c.kind) == Some(f) then WithCandidate(Entry(cs[..n], [], f), Rounded(c.score)) else Entry(cs[..n], [], f))
    {
      CandidateStep(cs, n, f);
    }
    r := scores;
    var format := FormatOf(c.kind);
    if format.Some? {
      var entry := scores[format.value];
      var rounded := Rounded(c.score);
      r := r[format.value := entry.(score := entry.score + rounded, candidateScore := rounded)];
    }
  }

  method AddSignal(scores: map<Format, Ranked>, ghost cs: seq<Candidate>, ghost ss: seq<Signal>, ghost n: nat, signal: Signal)
    returns (r: map<Format, Ranked>)
    requires n < |ss| && ss[n] == signal && Accumulated(scores, cs, ss[..n])
    ensures Accumulated(r, cs, ss[..n + 1])
  {
    hide Entry, SignalTotal, SignalsFor, CandidateTotal, LastCandidate;
    forall f ensures Entry(cs, ss[..n + 1], f) ==
      (if signal.format == f then WithSignal(Entry(cs, ss[..n], f), signal) else Entry(cs, ss[..n], f))
    {
      SignalStep(cs, ss, n, f);
    }
    var entry := scores[signal.format];
    r := scores[signal.format := entry.(score := entry.score + signal.weight, reasonCode := signal.reasonCode,
                                        signals := entry.signals + [signal])];
  }

  /** Adding up in a map what the candidates and then the signals say. */
  method Accumulate(cs: seq<Candidate>, ss: seq<Signal>) returns (scores: map<Format, Ranked>)
    ensures Accumulated(scores, cs, ss)
  {
    scores := map f: Format | f in {Docx, Pdf, Pptx} :: Ranked(f, 0, 0, "highest_candidate_score", []);
    forall f: Format ensures f in scores {
      match f case Docx => case Pdf => case Pptx =>
    }
    for n := 0 to |cs|
      invariant Accumulated(scores, cs[..n], [])
    {
      scores := AddCandidate(scores, cs, n, cs[n]);
    }
    assert cs[..|cs|] == cs && ss[..0] == [];
    for n := 0 to |ss|
      invariant Accumulated(scores, cs, ss[..n])
    {
      scores := AddSignal(scores, cs, ss, n, ss[n]);
    }
    assert ss[..|ss|] == ss;
  }

  // ---------------------------------------------------------------- the order

  predicate Ascending(s: seq<Ranked>) {
    forall i, j | 0 <= i < j < |s| :: Before(s[i], s[j])
  }

  predicate DistinctFormats(s: seq<Ranked>) {
    forall i, j | 0 <= i < j < |s| :: s[i].format != s[j].format
  }

  function InsertRanked(e: Ranked, s: seq<Ranked>): (r: seq<Ranked>)
    ensures multiset(r) == multiset(s) + multiset{e}
  {
    if |s| == 0 then [e]
    else if Before(e, s[0]) then [e] + s
    else
      assert s == [s[0]] + s[1..];
      [s[0]] + InsertRanked(e, s[1..])
  }

  function Sorted(s: seq<Ranked>): (r: seq<Ranked>)
    ensures multiset(r) == multiset(s)
  {
    if |s| == 0 then []
    else
      assert s == [s[0]] + s[1..];
      InsertRanked(s[0], Sorted(s[1..]))
  }

  lemma {:induction false} InsertAscending(e: Ranked, s: seq<Ranked>)
    requires Ascending(s) && forall x | x in s :: x.format != e.format
    ensures Ascending(InsertRanked(e, s))
  {
    if |s| > 0 {
      if Before(e, s[0]) {
      } else {
        InsertAscending(e, s[1..]);
        var r := InsertRanked(e, s[1..]);
        assert s[0] in s;
        forall x | x in r ensures Before(s[0], x) {
          assert x in multiset(r);
        }
      }
    }
  }

  lemma {:induction false} SortedAscending(s: seq<Ranked>)
    requires DistinctFormats(s)
    ensures Ascending(Sorted(s))
  {
    if |s| > 0 {
      SortedAscending(s[1..]);
      forall x | x in Sorted(s[1..]) ensures x.format != s[0].format {
        assert x in multiset(Sorted(s[1..]));
      }
      InsertAscending(s[0], Sorted(s[1..]));
    }
  }

  lemma TailMultiset(s: seq<Ranked>)
    requires |s| > 0
    ensures s == [s[0]] + s[1..] && multiset(s[1..]) == multiset(s) - multiset{s[0]}
  {
    assert s == [s[0]] + s[1..];
  }

  lemma SameHead(s: seq<Ranked>, t: seq<Ranked>)
    requires Ascending(s) && Ascending(t) && multiset(s) == multiset(t) && |s| > 0
    ensures |t| > 0 && s[0] == t[0]
  {
    assert s[0] in multiset(t);
    assert t[0] in multiset(s);
  }

  /** There is only one ascending list of given entries, so every correct sort, started from any order, returns it. */
  lemma {:induction false} AscendingUnique(s: seq<Ranked>, t: seq<Ranked>)
    requires Ascending(s) && Ascending(t) && multiset(s) == multiset(t)
    ensures s == t
  {
    if |s| == 0 {
      assert |multiset(t)| == 0;
    } else {
      SameHead(s, t);
      TailMultiset(s);
      TailMultiset(t);
      AscendingUnique(s[1..], t[1..]);
    }
  }

  /** The head of a sorted list comes before everything else in it, and no format is in it twice. */
  lemma SortedHead(s: seq<Ranked>)
    requires DistinctFormats(s) && |s| > 0
    ensures |Sorted(s)| == |s| && DistinctFormats(Sorted(s))
    ensures Sorted(s)[0] in s && forall e | e in s :: e == Sorted(s)[0] || Before(Sorted(s)[0], e)
  {
    var r := Sorted(s);
    SortedAscending(s);
    assert |multiset(r)| == |multiset(s)|;
    forall x ensures x in r <==> x in s {
      assert x in multiset(r) <==> x in multiset(s);
    }
    assert r[0] in r;
    forall i, j | 0 <= i < j < |r| ensures r[i].format != r[j].format {
      assert r[i] in s && r[j] in s && Before(r[i], r[j]);
    }
  }

  /** Entries in a given order. */
  function Listed(e: Format -> Ranked, order: seq<Format>): seq<Ranked> {
    seq(|order|, n requires 0 <= n < |order| => e(order[n]))
  }

  const ALLOWED_FORMATS := [Docx, Pdf, Pptx]

  predicate EachOnce(order: seq<Format>) {
    multiset(order) == multiset{Docx, Pdf, Pptx}
  }

  ghost predicate Named(e: Format -> Ranked) {
    forall f :: e(f).format == f
  }

  lemma EachOnceOrders(order: seq<Format>)
    requires EachOnce(order)
    ensures |order| == 3 && order[0] != order[1] && order[0] != order[2] && order[1] != order[2]
  {
    assert |multiset(order)| == 3;
    assert order == [order[0], order[1], order[2]];
    var ms := multiset{order[0], order[1], order[2]};
    assert ms[Docx] == 1 && ms[Pdf] == 1 && ms[Pptx] == 1;
  }

  lemma ListedInAnyOrder(e: Format -> Ranked, order: seq<Format>)
    requires EachOnce(order) && Named(e)
    ensures DistinctFormats(Listed(e, order)) && |Listed(e, order)| == 3
    ensures multiset(Listed(e, order)) == multiset{e(Docx), e(Pdf), e(Pptx)}
  {
    EachOnceOrders(order);
    var l := Listed(e, order);
    assert l == [e(order[0]), e(order[1]), e(order[2])];
  }

  function RankingOf(e: Format -> Ranked): seq<Ranked> {
    Sorted(Listed(e, ALLOWED_FORMATS))
  }

  /** The ranking is the same in whatever order the map's entries come out. */
  lemma OrderDoesNotMatter(e: Format -> Ranked, order: seq<Format>)
    requires EachOnce(order) && Named(e)
    ensures Sorted(Listed(e, order)) == RankingOf(e)
  {
    ListedInAnyOrder(e, order);
    ListedInAnyOrder(e, ALLOWED_FORMATS);
    SortedAscending(Listed(e, order));
    SortedAscending(Listed(e, ALLOWED_FORMATS));
    AscendingUnique(Sorted(Listed(e, order)), RankingOf(e));
  }

  /** Better than every other format: by score, and by priority where scores tie. */
  ghost predicate Best(e: Format -> Ranked, w: Format) {
    forall f: Format | f != w ::
      e(w).score > e(f).score || (e(w).score == e(f).score && TypePriority(w) < TypePriority(f))
  }

  lemma RankingMembers(e: Format -> Ranked)
    requires Named(e)
    ensures |RankingOf(e)| == 3 && DistinctFormats(RankingOf(e)) && Ascending(RankingOf(e))
    ensures forall n | 0 <= n < 3 :: RankingOf(e)[n] == e(RankingOf(e)[n].format)
  {
    var entries := Listed(e, ALLOWED_FORMATS);
    ListedInAnyOrder(e, ALLOWED_FORMATS);
    SortedHead(entries);
    SortedAscending(entries);
    var r := RankingOf(e);
    hide Sorted, Listed, Ascending, DistinctFormats, Named;
    forall n | 0 <= n < 3 ensures r[n] == e(r[n].format) {
      assert r[n] in multiset(r);
      OneOfThree(e, r[n]);
    }
  }

  lemma OneOfThree(e: Format -> Ranked, x: Ranked)
    requires Named(e) && x in multiset{e(Docx), e(Pdf), e(Pptx)}
    ensures x == e(x.format)
  {
  }

  /** The ranking lists the three formats once each, and its head is the one best format. */
  lemma HeadIsBest(e: Format -> Ranked, w: Format)
    requires Named(e)
    ensures |RankingOf(e)| == 3 && DistinctFormats(RankingOf(e))
    ensures Best(e, w) <==> RankingOf(e)[0].format == w
  {
    RankingMembers(e);
    var r := RankingOf(e);
    assert Before(r[0], r[1]) && Before(r[0], r[2]);
    assert r[0].format != r[1].format && r[0].format != r[2].format && r[1].format != r[2].format;
  }

  lemma RunnerUp(e: Format -> Ranked)
    requires Named(e)
    ensures |RankingOf(e)| == 3
    ensures var r := RankingOf(e);
      r[0].score == r[1].score <==> exists f: Format :: f != r[0].format && e(f).score == r[0].score
  {
    RankingMembers(e);
    var r := RankingOf(e);
    assert Before(r[0], r[1]) && Before(r[1], r[2]);
    assert r[0].format != r[1].format && r[0].format != r[2].format && r[1].format != r[2].format;
    if f: Format :| f != r[0].format && e(f).score == r[0].score {
      assert f == r[1].format || f == r[2].format;
    }
  }

  /** More for the winner and no more for the others keeps the winner. */
  lemma RaisingKeepsTheWinner(e: Format -> Ranked, e': Format -> Ranked, w: Format)
    requires Named(e) && Named(e') && Best(e, w)
    requires e'(w).score >= e(w).score && forall f: Format | f != w :: e'(f).score <= e(f).score
    ensures |RankingOf(e')| == 3 && RankingOf(e')[0].format == w
  {
    HeadIsBest(e', w);
  }

  // ---------------------------------------------------------------- the decision

  function EntryOf(cs: seq<Candidate>, ss: seq<Signal>): Format -> Ranked {
    f => Entry(cs, ss, f)
  }

  function Ranking(i: Interpretation): (r: seq<Ranked>)
    ensures |r| == 3
  {
    var e := EntryOf(i.candidates, Signals(i));
    HeadIsBest(e, Docx);
    RankingOf(e)
  }

  method RankCandidates(i: Interpretation, order: seq<Format>) returns (ranked: seq<Ranked>)
    requires EachOnce(order)
    ensures ranked == Ranking(i)
  {
    var signals := KeywordSignals(i);
    var scores := Accumulate(i.candidates, signals);
    ranked := SortEntries(scores, order, i.candidates, signals);
  }

  method SortEntries(scores: map<Format, Ranked>, order: seq<Format>, ghost cs: seq<Candidate>, ghost ss: seq<Signal>)
    returns (ranked: seq<Ranked>)
    requires EachOnce(order) && Accumulated(scores, cs, ss)
    ensures ranked == RankingOf(EntryOf(cs, ss))
  {
    ghost var e := EntryOf(cs, ss);
    var entries := seq(|order|, n requires 0 <= n < |order| => scores[order[n]]);
    assert entries == Listed(e, order);
    OrderDoesNotMatter(e, order);
    ranked := Sorted(entries);
  }

  /** What every candidate and every signal adds: a candidate its rounded score to the format it names, a signal its weight
      and its reason. Without any there is nothing but the default reason. */
  lemma EntryAddsUp(cs: seq<Candidate>, ss: seq<Signal>, c: Candidate, signal: Signal, f: Format)
    ensures Entry([], [], f) == Ranked(f, 0, 0, "highest_candidate_score", [])
    ensures Entry(cs + [c], ss, f) == Entry(cs, ss, f).(
      score := Entry(cs, ss, f).score + if c.kind == Name(f) then Rounded(c.score) else 0,
      candidateScore := if c.kind == Name(f) then Rounded(c.score) else Entry(cs, ss, f).candidateScore)
    ensures var before, after := Entry(cs, ss, f), Entry(cs, ss + [signal], f);
      if signal.format == f then
        after == before.(score := before.score + signal.weight, reasonCode := signal.reasonCode,
                         signals := before.signals + [signal])
      else after == before
  {
    CandidateAdds(cs, c, f);
    CandidateEntry(cs, ss, c, f);
    SignalEntry(cs, ss, signal, f);
    hide CandidateTotal, LastCandidate, SignalTotal, SignalsFor, Name, Rounded;
  }

  lemma CandidateEntry(cs: seq<Candidate>, ss: seq<Signal>, c: Candidate, f: Format)
    ensures Entry(cs + [c], ss, f) == Entry(cs, ss, f).(
      score := Entry(cs, ss, f).score + if c.kind == Name(f) then Rounded(c.score) else 0,
      candidateScore := if c.kind == Name(f) then Rounded(c.score) else Entry(cs, ss, f).candidateScore)
  {
    CandidateAdds(cs, c, f);
    hide CandidateTotal, LastCandidate, SignalTotal, SignalsFor, Name, Rounded;
  }

  lemma SignalEntry(cs: seq<Candidate>, ss: seq<Signal>, signal: Signal, f: Format)
    ensures var before, after := Entry(cs, ss, f), Entry(cs, ss + [signal], f);
      if signal.format == f then
        after == before.(score := before.score + signal.weight, reasonCode := signal.reasonCode,
                         signals := before.signals + [signal])
      else after == before
  {
    SignalStep(cs, ss + [signal], |ss|, f);
    hide Entry;
    assert (ss + [signal])[..|ss|] == ss && (ss + [signal])[..|ss| + 1] == ss + [signal];
  }

  lemma CandidateAdds(cs: seq<Candidate>, c: Candidate, f: Format)
    ensures CandidateTotal([], f) == LastCandidate([], f) == SignalTotal([]) == 0 && SignalsFor([], f) == []
    ensures CandidateTotal(cs + [c], f) == CandidateTotal(cs, f) + if c.kind == Name(f) then Rounded(c.score) else 0
    ensures LastCandidate(cs + [c], f) == if c.kind == Name(f) then Rounded(c.score) else LastCandidate(cs, f)
  {
    assert (cs + [c])[..|cs|] == cs;
    FormatNames(f, c.kind);
  }

  /** Which format wins, by the scores alone: ties go to PPTX, then to PDF. */
  lemma TiesGoToSlides(e: Format -> Ranked)
    ensures Best(e, Pptx) <==> e(Pptx).score >= e(Pdf).score && e(Pptx).score >= e(Docx).score
    ensures Best(e, Pdf) <==> e(Pdf).score > e(Pptx).score && e(Pdf).score >= e(Docx).score
    ensures Best(e, Docx) <==> e(Docx).score > e(Pptx).score && e(Docx).score > e(Pdf).score
  {
    assert forall f: Format :: TypePriority(f) <= 2;
  }

  /** One more candidate for the winner, with a score that is not negative, keeps the winner. */
  lemma OneMoreForTheWinner(cs: seq<Candidate>, ss: seq<Signal>, c: Candidate, w: Format)
    requires Best(EntryOf(cs, ss), w) && FormatOf(c.kind) == Some(w) && c.score >= 0.0
    ensures Best(EntryOf(cs + [c], ss), w)
  {
    assert (cs + [c])[..|cs|] == cs;
    var e, e' := EntryOf(cs, ss), EntryOf(cs + [c], ss);
    forall f: Format ensures e'(f).score == e(f).score + if f == w then Rounded(c.score) else 0 { }
    RaisingKeepsTheWinner(e, e', w);
    HeadIsBest(e', w);
  }

  datatype Source = TeacherOverride | InterpretationConstraint | CandidateRanking

  datatype DecisionOutput = DecisionOutput(
    preferred: string, constraintPreferred: string, resolved: string, source: Source, reasonCode: string,
    ranked: seq<Ranked>, tieBreakerApplied: bool)

  function Resolve(wanted: string, constraint: string, ranked: seq<Ranked>): DecisionOutput
    requires |ranked| == 3
  {
    if wanted != "auto" then
      DecisionOutput(wanted, constraint, wanted, TeacherOverride, "teacher_override", ranked, false)
    else if constraint != "auto" then
      DecisionOutput(wanted, constraint, constraint, InterpretationConstraint, "interpretation_constraint", ranked, false)
    else
      DecisionOutput(wanted, constraint, Name(ranked[0].format), CandidateRanking, ranked[0].reasonCode, ranked,
                     ranked[0].score == ranked[1].score)
  }

  function Decide(u: Unicode, i: Interpretation, preferred: Option<string>): DecisionOutput {
    Resolve(NormalizePreferredOutputType(u, preferred), NormalizePreferredOutputType(u, i.constraint), Ranking(i))
  }

  /** What the text asks for: one of the formats by name, up to case and surrounding whitespace, or nothing. */
  ghost function Asked(u: Unicode, text: Option<string>): Option<Format> {
    if text.None? then None
    else if Words(u, text.value) == [Name(Docx)] then Some(Docx)
    else if Words(u, text.value) == [Name(Pdf)] then Some(Pdf)
    else if Words(u, text.value) == [Name(Pptx)] then Some(Pptx)
    else None
  }

  lemma NormalizedAsked(u: Unicode, text: Option<string>)
    requires Sound(u)
    ensures NormalizePreferredOutputType(u, text) == if Asked(u, text).Some? then Name(Asked(u, text).value) else "auto"
  {
    NormalizedType(u, text);
    TypeNames(NormalizePreferredOutputType(u, text));
  }

  lemma TypeNames(t: string)
    requires t in OUTPUT_TYPES
    ensures t == "auto" || t == Name(Docx) || t == Name(Pdf) || t == Name(Pptx)
  {
  }

  /** The resolved type is what the teacher asks for, or else what the interpretation asks for, or else the best format,
      whose tie with another one is reported; nothing else decides. */
  lemma DecisionPriority(u: Unicode, i: Interpretation, preferred: Option<string>, best: Format)
    requires Sound(u) && Best(EntryOf(i.candidates, Signals(i)), best)
    ensures var d := Decide(u, i, preferred); var e := EntryOf(i.candidates, Signals(i));
      && d.resolved == Name(Asked(u, preferred).Or(Asked(u, i.constraint)).GetOr(best))
      && (d.source.TeacherOverride? <==> Asked(u, preferred).Some?)
      && (d.source.CandidateRanking? <==> Asked(u, preferred).None? && Asked(u, i.constraint).None?)
      && d.reasonCode == (match d.source case TeacherOverride => "teacher_override"
                          case InterpretationConstraint => "interpretation_constraint"
                          case CandidateRanking => e(best).reasonCode)
      && |d.ranked| == 3 && d.ranked[0] == e(best)
      && (d.tieBreakerApplied <==>
            d.source.CandidateRanking? && exists f: Format :: f != best && e(f).score == e(best).score)
  {
    var ss := Signals(i);
    var e := EntryOf(i.candidates, ss);
    HeadIsBest(e, best);
    RankingMembers(e);
    RunnerUp(e);
    NormalizedAsked(u, preferred);
    NormalizedAsked(u, i.constraint);
    assert e(best) == RankingOf(e)[0];
  }

  /** The three names differ in length or in their second letter. */
  lemma NamesDiffer(f: Format, g: Format)
    requires Name(f) == Name(g)
    ensures f == g
  {
    assert |Name(Docx)| == 4 && |Name(Pdf)| == 3 && |Name(Pptx)| == 4;
    assert Name(Docx)[1] == 'o' && Name(Pptx)[1] == 'p';
  }

  lemma NameIsOneWord(u: Unicode, f: Format)
    requires Sound(u)
    ensures Words(u, Name(f)) == [Name(f)]
  {
    OutputTypeText(Name(f));
    assert Plain(u, Name(f));
    hide Sound, Plain, Name;
    WordsSplit(u, Name(f), "");
    assert Name(f) + "" == Name(f);
    assert Words(u, "") == [];
  }

  lemma AskedByName(u: Unicode, f: Format)
    requires Sound(u)
    ensures Asked(u, Some(Name(f))) == Some(f)
  {
    hide Sound, Name, Words;
    NameIsOneWord(u, f);
    forall g | [Name(f)] == [Name(g)] ensures f == g {
      assert [Name(f)][0] == [Name(g)][0];
      NamesDiffer(f, g);
    }
  }

  /** Deciding again with the resolved type as the preference resolves to the same type, so the three decisions of one
      classification agree: with the teacher's preference, from the draft step with the resolved type, and with the
      teacher's preference again. */
  lemma DecisionsAgree(u: Unicode, i: Interpretation, preferred: Option<string>)
    requires Sound(u)
    ensures Decide(u, i, Some(Decide(u, i, preferred).resolved)).resolved == Decide(u, i, preferred).resolved
  {
    var e := EntryOf(i.candidates, Signals(i));
    var best := RankingOf(e)[0].format;
    HeadIsBest(e, best);
    DecisionPriority(u, i, preferred, best);
    var f := Asked(u, preferred).Or(Asked(u, i.constraint)).GetOr(best);
    AskedByName(u, f);
    DecisionPriority(u, i, Some(Name(f)), best);
  }
}
