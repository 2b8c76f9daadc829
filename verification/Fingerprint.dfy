/** The request fingerprint of a submission, up to the point where its text is hashed: the squished prompt, the
    normalised output type, and the text of the five parts. */
module Fingerprint {
  import opened Wrappers
  import CanonicalJson

  /** What the code asks of Unicode. */
  datatype Unicode = Unicode(space: char -> bool, lower: char -> string)

  const OUTPUT_TYPES: seq<string> := ["auto", "docx", "pdf", "pptx"]

  /** Lowercasing keeps whitespace as it is, turns any other character into a nonempty text without whitespace, and
      changes nothing the second time. */
  ghost predicate Sound(u: Unicode) {
    && u.space(' ')
    && (forall c | u.space(c) :: u.lower(c) == [c])
    && (forall c | !u.space(c) :: |u.lower(c)| > 0)
    && (forall c, d | !u.space(c) && d in u.lower(c) :: !u.space(d) && u.lower(d) == [d])
    && (forall t | t in OUTPUT_TYPES :: Plain(u, t))
  }

  /** A text without whitespace that lowercasing does not change. */
  ghost predicate Plain(u: Unicode, t: string) {
    forall c | c in t :: !u.space(c) && u.lower(c) == [c]
  }

  // ---------------------------------------------------------------- the operations

  function Fold(u: Unicode, s: string, acc: string, afterSpace: bool): string {
    if |s| == 0 then acc
    else if u.space(s[0]) then Fold(u, s[1..], if afterSpace then acc else acc + " ", true)
    else Fold(u, s[1..], acc + u.lower(s[0]), false)
  }

  function TrimStart(u: Unicode, s: string): string {
    if |s| > 0 && u.space(s[0]) then TrimStart(u, s[1..]) else s
  }

  function TrimEnd(u: Unicode, s: string): string {
    if |s| > 0 && u.space(s[|s| - 1]) then TrimEnd(u, s[..|s| - 1]) else s
  }

  function Trim(u: Unicode, s: string): string {
    TrimEnd(u, TrimStart(u, s))
  }

  function SquishAndLower(u: Unicode, s: string): string {
    Trim(u, Fold(u, s, "", false))
  }

  function Lower(u: Unicode, s: string): string {
    if |s| == 0 then "" else u.lower(s[0]) + Lower(u, s[1..])
  }

  function NormalizePreferredOutputType(u: Unicode, preferred: Option<string>): string {
    if preferred.None? then "auto"
    else
      var trimmed := Trim(u, preferred.value);
      var normalized := Lower(u, trimmed);
      if |trimmed| > 0 && normalized in OUTPUT_TYPES then normalized else "auto"
  }

  function IdText(id: Option<int>): string {
    if id.Some? then CanonicalJson.Decimal(id.value) else "none"
  }

  /** The text that is hashed: the parts separated by bars. */
  function CanonicalText(u: Unicode, teacher: int, prompt: string, outputType: string,
                         subject: Option<int>, subSubject: Option<int>): string {
    CanonicalJson.Decimal(teacher) + ("|" + (outputType + ("|" + (IdText(subject) + ("|" + (IdText(subSubject)
      + ("|" + SquishAndLower(u, prompt))))))))
  }

  // ---------------------------------------------------------------- the reference: words

  /** How many characters a text has before its first whitespace. */
  function WordLength(u: Unicode, s: string): (n: nat)
    ensures n <= |s|
    ensures forall i | 0 <= i < n :: !u.space(s[i])
    ensures n < |s| ==> u.space(s[n])
  {
    if |s| > 0 && !u.space(s[0]) then 1 + WordLength(u, s[1..]) else 0
  }

  /** The maximal runs of characters that are not whitespace, lowercased. */
  function Words(u: Unicode, s: string): seq<string>
    decreases |s|
  {
    if |s| == 0 then []
    else if u.space(s[0]) then Words(u, s[1..])
    else
      var n := WordLength(u, s);
      [Lower(u, s[..n])] + Words(u, s[n..])
  }

  /** Words joined by single spaces. */
  function Joined(words: seq<string>): string {
    if |words| == 0 then ""
    else if |words| == 1 then words[0]
    else words[0] + (" " + Joined(words[1..]))
  }

  // ---------------------------------------------------------------- the fold against the reference

  /** What the fold adds to its accumulator. */
  function Collapsed(u: Unicode, s: string, afterSpace: bool): string {
    if |s| == 0 then ""
    else if u.space(s[0]) then (if afterSpace then "" else " ") + Collapsed(u, s[1..], true)
    else u.lower(s[0]) + Collapsed(u, s[1..], false)
  }

  lemma {:induction false} FoldCollapses(u: Unicode, s: string, acc: string, afterSpace: bool)
    ensures Fold(u, s, acc, afterSpace) == acc + Collapsed(u, s, afterSpace)
  {
    if |s| > 0 {
      if u.space(s[0]) {
        FoldCollapses(u, s[1..], if afterSpace then acc else acc + " ", true);
      } else {
        FoldCollapses(u, s[1..], acc + u.lower(s[0]), false);
      }
    }
  }

  lemma {:induction false} TrimStartCollapses(u: Unicode, s: string)
    requires Sound(u)
    ensures TrimStart(u, Collapsed(u, s, false)) == Collapsed(u, s, true)
    ensures TrimStart(u, Collapsed(u, s, true)) == Collapsed(u, s, true)
  {
    if |s| > 0 {
      if u.space(s[0]) {
        TrimStartCollapses(u, s[1..]);
        assert Collapsed(u, s, false)[1..] == Collapsed(u, s[1..], true);
        assert Collapsed(u, s, true) == Collapsed(u, s[1..], true);
      } else {
        assert Collapsed(u, s, false)[0] == u.lower(s[0])[0];
        assert u.lower(s[0])[0] in u.lower(s[0]);
      }
    }
  }

  lemma {:induction false} TrimEndOfTwo(u: Unicode, a: string, b: string)
    ensures TrimEnd(u, a + b) == if TrimEnd(u, b) == "" then TrimEnd(u, a) else a + TrimEnd(u, b)
    decreases |b|
  {
    if |b| == 0 {
      assert a + b == a;
    } else if u.space(b[|b| - 1]) {
      assert (a + b)[..|a + b| - 1] == a + b[..|b| - 1];
      TrimEndOfTwo(u, a, b[..|b| - 1]);
    }
  }

  lemma {:induction false} LowerHasNoSpace(u: Unicode, w: string)
    requires Sound(u) && forall c | c in w :: !u.space(c)
    ensures forall c | c in Lower(u, w) :: !u.space(c) && u.lower(c) == [c]
    ensures |w| > 0 ==> |Lower(u, w)| > 0
    ensures TrimEnd(u, Lower(u, w)) == Lower(u, w)
  {
    if |w| > 0 {
      assert w[0] in w;
      forall c | c in w[1..] ensures !u.space(c) { assert c in w; }
      LowerHasNoSpace(u, w[1..]);
      forall c | c in Lower(u, w) ensures !u.space(c) && u.lower(c) == [c] {
        if c in u.lower(w[0]) { } else { assert c in Lower(u, w[1..]); }
      }
      var l := Lower(u, w);
      assert l[|l| - 1] in l;
    }
  }

  /** The words of a text are nonempty, without whitespace and in lower case. */
  ghost predicate AreWords(u: Unicode, words: seq<string>) {
    forall w | w in words :: |w| > 0 && Plain(u, w)
  }

  lemma {:induction false} WordsAreWords(u: Unicode, s: string)
    requires Sound(u)
    ensures AreWords(u, Words(u, s))
    decreases |s|
  {
    if |s| > 0 {
      if u.space(s[0]) {
        WordsAreWords(u, s[1..]);
      } else {
        var n := WordLength(u, s);
        WordsAreWords(u, s[n..]);
        LowerHasNoSpace(u, s[..n]);
      }
    }
  }

  lemma {:induction false} CollapsedWord(u: Unicode, s: string, afterSpace: bool)
    requires |s| > 0 && !u.space(s[0])
    ensures Collapsed(u, s, afterSpace) == Lower(u, s[..WordLength(u, s)]) + Collapsed(u, s[WordLength(u, s)..], false)
  {
    var n := WordLength(u, s);
    var c := u.lower(s[0]);
    assert s[1..][n - 1..] == s[n..] && s[..n][1..] == s[1..][..n - 1];
    if n > 1 {
      CollapsedWord(u, s[1..], false);
    } else {
      assert WordLength(u, s[1..]) == 0;
      assert Lower(u, s[..n]) == c + Lower(u, "");
    }
    CanonicalJson.Join(c, Lower(u, s[1..][..n - 1]), Collapsed(u, s[n..], false));
  }

  lemma {:induction false} CollapsedJoins(u: Unicode, s: string)
    requires Sound(u)
    ensures TrimEnd(u, Collapsed(u, s, true)) == Joined(Words(u, s))
    decreases |s|
  {
    if |s| > 0 {
      if u.space(s[0]) {
        CollapsedJoins(u, s[1..]);
        assert Collapsed(u, s, true) == Collapsed(u, s[1..], true);
      } else {
        var n := WordLength(u, s);
        var w, rest := Lower(u, s[..n]), s[n..];
        LowerHasNoSpace(u, s[..n]);
        CollapsedWord(u, s, true);
        TrimEndOfTwo(u, w, Collapsed(u, rest, false));
        if |rest| > 0 {
          CollapsedJoins(u, rest[1..]);
          assert Words(u, rest) == Words(u, rest[1..]);
          WordsAreWords(u, rest[1..]);
          TrimEndOfTwo(u, " ", Collapsed(u, rest[1..], true));
          JoinedEmpty(u, Words(u, rest));
          assert TrimEnd(u, " ") == "";
        }
        assert Words(u, s) == [w] + Words(u, rest);
      }
    }
  }

  lemma JoinedEmpty(u: Unicode, words: seq<string>)
    requires AreWords(u, words)
    ensures Joined(words) == "" <==> words == []
  {
    if |words| > 0 { assert words[0] in words; }
  }

  /** The squishing fold is splitting on whitespace, lowercasing, and joining with single spaces. */
  lemma SquishJoinsWords(u: Unicode, s: string)
    requires Sound(u)
    ensures SquishAndLower(u, s) == Joined(Words(u, s))
  {
    FoldCollapses(u, s, "", false);
    assert Fold(u, s, "", false) == Collapsed(u, s, false);
    TrimStartCollapses(u, s);
    CollapsedJoins(u, s);
  }

  lemma {:induction false} LowerOfLower(u: Unicode, w: string)
    requires forall c | c in w :: u.lower(c) == [c]
    ensures Lower(u, w) == w
  {
    if |w| > 0 {
      assert w[0] in w;
      LowerOfLower(u, w[1..]);
      assert w == [w[0]] + w[1..];
    }
  }

  lemma {:induction false} WordThenSpace(u: Unicode, w: string, rest: string)
    requires forall c | c in w :: !u.space(c)
    requires |rest| > 0 ==> u.space(rest[0])
    ensures WordLength(u, w + rest) == |w|
  {
    if |w| > 0 {
      assert w[0] in w;
      forall c | c in w[1..] ensures !u.space(c) { assert c in w; }
      assert (w + rest)[1..] == w[1..] + rest;
      WordThenSpace(u, w[1..], rest);
    } else {
      assert w + rest == rest;
    }
  }

  lemma WordsSplit(u: Unicode, w: string, rest: string)
    requires |w| > 0 && Plain(u, w)
    requires |rest| > 0 ==> u.space(rest[0])
    ensures Words(u, w + rest) == [w] + Words(u, rest)
  {
    WordThenSpace(u, w, rest);
    assert (w + rest)[0] == w[0] && w[0] in w;
    assert (w + rest)[..|w|] == w && (w + rest)[|w|..] == rest;
    LowerOfLower(u, w);
  }

  lemma {:induction false} WordsOfJoined(u: Unicode, words: seq<string>)
    requires Sound(u) && AreWords(u, words)
    ensures Words(u, Joined(words)) == words
  {
    if |words| > 0 {
      var w, ws := words[0], words[1..];
      assert words == [w] + ws;
      assert w in words;
      if |ws| == 0 {
        WordsSplit(u, w, "");
        assert w + "" == w;
      } else {
        forall v | v in ws ensures v in words { }
        WordsOfJoined(u, ws);
        var rest := " " + Joined(ws);
        assert rest[1..] == Joined(ws);
        WordsSplit(u, w, rest);
      }
    }
  }

  /** Two prompts squish to the same text exactly when they have the same words up to case, and squishing a squished
      text changes nothing. */
  lemma SquishKeepsWords(u: Unicode, s: string, t: string)
    requires Sound(u)
    ensures SquishAndLower(u, s) == SquishAndLower(u, t) <==> Words(u, s) == Words(u, t)
    ensures SquishAndLower(u, SquishAndLower(u, s)) == SquishAndLower(u, s)
  {
    WordsAreWords(u, s);
    WordsAreWords(u, t);
    SquishJoinsWords(u, s);
    SquishJoinsWords(u, t);
    WordsOfJoined(u, Words(u, s));
    WordsOfJoined(u, Words(u, t));
    SquishJoinsWords(u, SquishAndLower(u, s));
  }

  // ---------------------------------------------------------------- the fingerprint identifies the request

  /** How many characters a text has before its first bar. */
  function BeforeBar(l: string): nat {
    if |l| > 0 && l[0] != '|' then 1 + BeforeBar(l[1..]) else 0
  }

  lemma {:induction false} BeforeBarOf(s: string, x: string)
    requires '|' !in s
    ensures BeforeBar(s + ("|" + x)) == |s|
  {
    if |s| == 0 {
      assert s + ("|" + x) == "|" + x;
    } else {
      assert s[0] in s;
      assert '|' !in s[1..];
      assert (s + ("|" + x))[1..] == s[1..] + ("|" + x);
      BeforeBarOf(s[1..], x);
    }
  }

  lemma BarEnds(s: string, t: string, x: string, y: string)
    requires s + ("|" + x) == t + ("|" + y)
    requires '|' !in s && '|' !in t
    ensures s == t && x == y
  {
    BeforeBarOf(s, x);
    BeforeBarOf(t, y);
    CanonicalJson.Cut(s, "|" + x, t, "|" + y);
    CanonicalJson.Peel('|', x, '|', y);
  }

  lemma DecimalHasNoBar(n: int)
    ensures '|' !in CanonicalJson.Decimal(n)
  {
    CanonicalJson.DigitsAreDigits(if n < 0 then -n else n);
  }

  lemma IdTextUnique(a: Option<int>, b: Option<int>)
    requires IdText(a) == IdText(b)
    ensures a == b
  {
    if a.Some? { CanonicalJson.DecimalText(a.value, ""); }
    if b.Some? { CanonicalJson.DecimalText(b.value, ""); }
    if a.Some? && b.Some? { CanonicalJson.DecimalUnique(a.value, b.value, "", ""); }
  }

  lemma IdTextHasNoBar(id: Option<int>)
    ensures '|' !in IdText(id)
  {
    if id.Some? { DecimalHasNoBar(id.value); }
  }

  /** Two requests are hashed from the same text exactly when teacher, output type, subject, sub-subject and the words
      of the prompt agree; the prompt may hold bars, the output type may not. */
  lemma CanonicalTextIdentifies(u: Unicode, teacher: int, prompt: string, outputType: string, subject: Option<int>,
                                subSubject: Option<int>, teacher': int, prompt': string, outputType': string,
                                subject': Option<int>, subSubject': Option<int>)
    requires Sound(u)
    requires '|' !in outputType && '|' !in outputType'
    ensures CanonicalText(u, teacher, prompt, outputType, subject, subSubject)
         == CanonicalText(u, teacher', prompt', outputType', subject', subSubject')
       <==> && teacher == teacher' && outputType == outputType' && subject == subject' && subSubject == subSubject'
            && Words(u, prompt) == Words(u, prompt')
  {
    SquishKeepsWords(u, prompt, prompt');
    if CanonicalText(u, teacher, prompt, outputType, subject, subSubject)
       == CanonicalText(u, teacher', prompt', outputType', subject', subSubject')
    {
      DecimalHasNoBar(teacher);
      DecimalHasNoBar(teacher');
      FiveParts(CanonicalJson.Decimal(teacher), outputType, subject, subSubject, SquishAndLower(u, prompt),
                CanonicalJson.Decimal(teacher'), outputType', subject', subSubject', SquishAndLower(u, prompt'));
      CanonicalJson.DecimalUnique(teacher, teacher', "", "");
    }
  }

  lemma FiveParts(a: string, b: string, c: Option<int>, d: Option<int>, e: string,
                  a': string, b': string, c': Option<int>, d': Option<int>, e': string)
    requires '|' !in a && '|' !in a' && '|' !in b && '|' !in b'
    requires a + ("|" + (b + ("|" + (IdText(c) + ("|" + (IdText(d) + ("|" + e)))))))
          == a' + ("|" + (b' + ("|" + (IdText(c') + ("|" + (IdText(d') + ("|" + e')))))))
    ensures a == a' && b == b' && c == c' && d == d' && e == e'
  {
    IdTextHasNoBar(c);
    IdTextHasNoBar(c');
    IdTextHasNoBar(d);
    IdTextHasNoBar(d');
    var three, three' := IdText(d) + ("|" + e), IdText(d') + ("|" + e');
    var two, two' := IdText(c) + ("|" + three), IdText(c') + ("|" + three');
    BarEnds(a, a', b + ("|" + two), b' + ("|" + two'));
    BarEnds(b, b', two, two');
    BarEnds(IdText(c), IdText(c'), three, three');
    BarEnds(IdText(d), IdText(d'), e, e');
    IdTextUnique(c, c');
    IdTextUnique(d, d');
  }

  /** With a bar in the output type two different requests can share their text. */
  lemma BarInTypeCollides(u: Unicode)
    requires Sound(u) && Plain(u, "none|")
    ensures CanonicalText(u, 1, "", "a|none", None, None) == CanonicalText(u, 1, "none|", "a", None, None)
    ensures Words(u, "") != Words(u, "none|")
  {
    WordsSplit(u, "none|", "");
    assert "none|" + "" == "none|";
    SquishJoinsWords(u, "none|");
    SquishJoinsWords(u, "");
    var x := "|" + ("none" + ("|" + ("none" + "|")));
    assert "none" + "|" == "none|" && "|" + "" == "|" && "a" + ("|" + "none") == "a|none";
    CanonicalJson.Join("a", "|" + "none", x);
    CanonicalJson.Join("|", "none", x);
  }

  // ---------------------------------------------------------------- the output type

  lemma {:induction false} TrailingSpaceNoWord(u: Unicode, s: string, c: char)
    requires u.space(c)
    ensures Words(u, s + [c]) == Words(u, s)
    decreases |s|
  {
    if |s| == 0 {
      assert s + [c] == [c];
    } else if u.space(s[0]) {
      assert (s + [c])[1..] == s[1..] + [c];
      TrailingSpaceNoWord(u, s[1..], c);
    } else {
      var n := WordLength(u, s);
      assert s + [c] == s[..n] + (s[n..] + [c]);
      WordThenSpace(u, s[..n], s[n..] + [c]);
      assert (s + [c])[..n] == s[..n] && (s + [c])[n..] == s[n..] + [c];
      TrailingSpaceNoWord(u, s[n..], c);
    }
  }

  lemma {:induction false} TrimStartKeepsWords(u: Unicode, s: string)
    ensures Words(u, TrimStart(u, s)) == Words(u, s)
    ensures |TrimStart(u, s)| > 0 ==> !u.space(TrimStart(u, s)[0])
  {
    if |s| > 0 && u.space(s[0]) { TrimStartKeepsWords(u, s[1..]); }
  }

  lemma {:induction false} TrimEndKeepsWords(u: Unicode, s: string)
    ensures Words(u, TrimEnd(u, s)) == Words(u, s)
    ensures var t := TrimEnd(u, s); |t| > 0 ==> !u.space(t[|t| - 1]) && t[0] == s[0]
  {
    if |s| > 0 && u.space(s[|s| - 1]) {
      TrimEndKeepsWords(u, s[..|s| - 1]);
      assert s == s[..|s| - 1] + [s[|s| - 1]];
      TrailingSpaceNoWord(u, s[..|s| - 1], s[|s| - 1]);
    }
  }

  lemma {:induction false} NoWordsAllSpace(u: Unicode, s: string)
    requires Words(u, s) == []
    ensures forall c | c in s :: u.space(c)
  {
    if |s| > 0 { NoWordsAllSpace(u, s[1..]); }
  }

  lemma NoWordsInTail(u: Unicode, s: string, n: nat)
    requires n <= |s| && Words(u, s[n..]) == []
    ensures forall i | n <= i < |s| :: u.space(s[i])
  {
    NoWordsAllSpace(u, s[n..]);
    forall i | n <= i < |s| ensures u.space(s[i]) {
      assert s[i] == s[n..][i - n];
    }
  }

  lemma {:induction false} LowerKeepsSpaces(u: Unicode, s: string)
    requires Sound(u) && forall c | c in Lower(u, s) :: !u.space(c)
    ensures forall c | c in s :: !u.space(c)
  {
    if |s| > 0 {
      forall c | c in Lower(u, s[1..]) ensures !u.space(c) { assert c in Lower(u, s); }
      LowerKeepsSpaces(u, s[1..]);
      assert u.space(s[0]) ==> s[0] in Lower(u, s);
    }
  }

  /** A trimmed text without inner whitespace is its own only word, and the other way round. */
  lemma TrimmedToWord(u: Unicode, s: string, t: string)
    requires Sound(u) && |t| > 0 && Plain(u, t)
    ensures |Trim(u, s)| > 0 && Lower(u, Trim(u, s)) == t <==> Words(u, s) == [t]
  {
    var y := Trim(u, s);
    TrimStartKeepsWords(u, s);
    TrimEndKeepsWords(u, TrimStart(u, s));
    if |y| > 0 {
      var n := WordLength(u, y);
      if Lower(u, y) == t {
        LowerKeepsSpaces(u, y);
        WordThenSpace(u, y, "");
        assert y + "" == y;
      }
      if Words(u, y[n..]) == [] {
        NoWordsInTail(u, y, n);
      }
      assert Words(u, y) == [Lower(u, y[..n])] + Words(u, y[n..]);
      assert Words(u, y)[0] == Lower(u, y[..n]);
      assert n == |y| ==> y[..n] == y && y[n..] == "" && Words(u, y) == [Lower(u, y)];
      assert Words(u, y) == [t] ==> n == |y| by {
        assert Words(u, y) == [t] ==> |Words(u, y[n..])| == 0;
      }
    }
  }

  lemma OutputTypeText(t: string)
    requires t in OUTPUT_TYPES
    ensures |t| > 0 && '|' !in t
  {
  }

  /** Whatever is asked for, one of the four types comes out, never one with a bar; a named type comes out exactly when
      the request is that one word up to case and surrounding whitespace; and normalising again changes nothing. */
  lemma NormalizedType(u: Unicode, preferred: Option<string>)
    requires Sound(u)
    ensures NormalizePreferredOutputType(u, preferred) in OUTPUT_TYPES
    ensures '|' !in NormalizePreferredOutputType(u, preferred)
    ensures forall t | t in OUTPUT_TYPES && t != "auto" ::
      NormalizePreferredOutputType(u, preferred) == t <==> preferred.Some? && Words(u, preferred.value) == [t]
    ensures NormalizePreferredOutputType(u, Some(NormalizePreferredOutputType(u, preferred)))
         == NormalizePreferredOutputType(u, preferred)
  {
    var r := NormalizePreferredOutputType(u, preferred);
    assert OUTPUT_TYPES[0] == "auto";
    OutputTypeText(r);
    forall t | t in OUTPUT_TYPES && t != "auto"
      ensures r == t <==> preferred.Some? && Words(u, preferred.value) == [t]
    {
      OutputTypeText(t);
      if preferred.Some? { TrimmedToWord(u, preferred.value, t); }
    }
    WordsSplit(u, r, "");
    assert r + "" == r;
    TrimmedToWord(u, r, r);
  }
}
