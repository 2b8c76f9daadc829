/** The canonical JSON text that the semantic cache hashes into its keys.

    `Print` follows the Rust printer: objects are printed with their keys in ascending order, strings
    with the short escapes of section 7 of RFC 8259 and lower-case `\u00xx` for the other control
    characters, and no whitespace anywhere.  The main results say that two documents have the same
    text exactly when they are equal up to the order of keys at every depth, and that the text under
    a cache key fixes every input of the key.
 */
module CanonicalJson {
  import opened Collections

  /** A JSON document.  An object keeps its entries in insertion order, as serde_json does. */
  datatype Json =
    | Null
    | Bool(b: bool)
    | Number(n: int)
    | Str(s: string)
    | Arr(items: seq<Json>)
    | Obj(fields: seq<Field>)

  datatype Field = Field(key: string, value: Json)

  /** No object has two entries with one key, which serde_json's map type guarantees. */
  ghost predicate Valid(v: Json)
    decreases v
  {
    match v
    case Arr(items) => forall x | x in items :: Valid(x)
    case Obj(fields) =>
      && (forall i, j | 0 <= i < j < |fields| :: fields[i].key != fields[j].key)
      && (forall f | f in fields :: Valid(f.value))
    case _ => true
  }

  /** Equality up to the order of keys at every depth. */
  ghost predicate Same(v: Json, w: Json)
    decreases v
  {
    match v
    case Arr(items) =>
      && w.Arr? && |items| == |w.items|
      && forall i | 0 <= i < |items| :: Same(items[i], w.items[i])
    case Obj(fields) =>
      && w.Obj? && |fields| == |w.fields|
      && forall i | 0 <= i < |fields| :: HasSame(fields[i], w.fields)
    case _ => v == w
  }

  ghost predicate HasSame(f: Field, fields: seq<Field>)
    decreases f
  {
    exists j | 0 <= j < |fields| :: f.key == fields[j].key && Same(f.value, fields[j].value)
  }

  // ---------------------------------------------------------------- key order

  /** Lexicographic order of strings by code point, the order of a BTreeMap over UTF-8 strings. */
  predicate Before(a: string, b: string) {
    if |b| == 0 then false
    else if |a| == 0 then true
    else a[0] < b[0] || (a[0] == b[0] && Before(a[1..], b[1..]))
  }

  lemma {:induction false} BeforeTotal(a: string, b: string)
    ensures Before(a, b) || a == b || Before(b, a)
    ensures !(Before(a, b) && Before(b, a))
    ensures !Before(a, a)
  {
    if |a| > 0 {
      BeforeTotal(a[1..], a[1..]);
      if |b| > 0 {
        BeforeTotal(a[1..], b[1..]);
        assert a == [a[0]] + a[1..] && b == [b[0]] + b[1..];
      }
    }
  }

  lemma {:induction false} BeforeTransitive(a: string, b: string, c: string)
    requires Before(a, b) && Before(b, c)
    ensures Before(a, c)
  {
    if |a| > 0 && a[0] == b[0] == c[0] {
      BeforeTransitive(a[1..], b[1..], c[1..]);
    }
  }

  /** The texts agree up to a place where the first one ends, or has the smaller code point. */
  predicate SmallerAt(a: string, b: string, k: nat) {
    k <= |a| && k < |b| && a[..k] == b[..k] && (k == |a| || a[k] < b[k])
  }

  lemma {:induction false} BeforeIsLexicographic(a: string, b: string)
    ensures Before(a, b) <==> exists k: nat :: SmallerAt(a, b, k)
  {
    if |b| > 0 {
      if |a| == 0 || a[0] < b[0] {
        assert SmallerAt(a, b, 0);
      } else if a[0] == b[0] {
        BeforeIsLexicographic(a[1..], b[1..]);
        if k: nat :| SmallerAt(a[1..], b[1..], k) { SmallerLater(a, b, k); }
        if k: nat :| SmallerAt(a, b, k) { SmallerLater(a, b, k - 1); }
      } else if k: nat :| SmallerAt(a, b, k) {
        FirstNotGreater(a, b, k);
      }
    }
  }

  lemma FirstNotGreater(a: string, b: string, k: nat)
    requires SmallerAt(a, b, k) && |a| > 0
    ensures a[0] <= b[0]
  {
    if k > 0 { assert a[..k][0] == b[..k][0]; }
  }

  lemma SmallerLater(a: string, b: string, k: nat)
    requires |a| > 0 && |b| > 0 && a[0] == b[0]
    ensures SmallerAt(a, b, k + 1) <==> SmallerAt(a[1..], b[1..], k)
  {
    if k + 1 <= |a| && k + 1 <= |b| {
      assert a[..k + 1] == [a[0]] + a[1..][..k] && b[..k + 1] == [b[0]] + b[1..][..k];
      assert a[..k + 1][1..] == a[1..][..k] && b[..k + 1][1..] == b[1..][..k];
    }
  }

  function Insert(f: Field, fs: seq<Field>): (r: seq<Field>)
    ensures multiset(r) == multiset{f} + multiset(fs)
  {
    if |fs| == 0 || Before(f.key, fs[0].key) then [f] + fs
    else
      assert fs == [fs[0]] + fs[1..];
      [fs[0]] + Insert(f, fs[1..])
  }

  function SortFields(fs: seq<Field>): (r: seq<Field>)
    ensures multiset(r) == multiset(fs)
  {
    if |fs| == 0 then []
    else
      assert fs == [fs[0]] + fs[1..];
      Insert(fs[0], SortFields(fs[1..]))
  }

  lemma SortFieldsMembers(fs: seq<Field>)
    ensures |SortFields(fs)| == |fs|
    ensures forall f :: f in SortFields(fs) <==> f in fs
  {
    assert |multiset(SortFields(fs))| == |multiset(fs)|;
    forall f ensures f in SortFields(fs) <==> f in fs {
      assert f in SortFields(fs) <==> f in multiset(SortFields(fs));
    }
  }

  // ---------------------------------------------------------------- printing

  function HexDigit(n: nat): char
    requires n < 16
  {
    if n < 10 then (48 + n) as char else (87 + n) as char
  }

  function EscapeChar(c: char): string {
    if c == '"' then "\\\""
    else if c == '\\' then "\\\\"
    else if c == 8 as char then "\\b"
    else if c == 9 as char then "\\t"
    else if c == 10 as char then "\\n"
    else if c == 12 as char then "\\f"
    else if c == 13 as char then "\\r"
    else if c < 32 as char then ['\\', 'u', '0', '0', HexDigit(c as int / 16), HexDigit(c as int % 16)]
    else [c]
  }

  function Escape(s: string): string {
    if |s| == 0 then "" else EscapeChar(s[0]) + Escape(s[1..])
  }

  function Quote(s: string): string {
    "\"" + Escape(s) + "\""
  }

  function Digits(n: nat): (r: string)
    ensures |r| > 0
  {
    if n < 10 then ["0123456789"[n]] else Digits(n / 10) + ["0123456789"[n % 10]]
  }

  function Decimal(n: int): string {
    if n < 0 then "-" + Digits(-n) else Digits(n)
  }

  /** What the character after a backslash stands for, as section 7 of RFC 8259 says. */
  function ShortMeaning(c: char): char {
    match c
    case 'b' => 8 as char
    case 't' => 9 as char
    case 'n' => 10 as char
    case 'f' => 12 as char
    case 'r' => 13 as char
    case _ => c
  }

  function HexValue(c: char): (n: nat)
    ensures n < 16
  {
    if '0' <= c <= '9' then (c - '0') as int else if 'a' <= c <= 'f' then (c - 'a') as int + 10 else 0
  }

  /** Reading an escaped text; of the escapes with four digits only those that start with two zeros. */
  function Unescape(t: string): string {
    if |t| == 0 then ""
    else if t[0] != '\\' then [t[0]] + Unescape(t[1..])
    else if |t| >= 6 && t[1] == 'u' && t[2] == '0' && t[3] == '0' then
      [(HexValue(t[4]) * 16 + HexValue(t[5])) as char] + Unescape(t[6..])
    else if |t| >= 2 then [ShortMeaning(t[1])] + Unescape(t[2..])
    else ""
  }

  lemma UnescapeTwo(d: char, rest: string)
    requires d != 'u'
    ensures Unescape(['\\', d] + rest) == [ShortMeaning(d)] + Unescape(rest)
  {
    assert (['\\', d] + rest)[2..] == rest;
  }

  lemma UnescapeSix(x: char, y: char, rest: string)
    ensures Unescape(['\\', 'u', '0', '0', x, y] + rest) == [(HexValue(x) * 16 + HexValue(y)) as char] + Unescape(rest)
  {
    assert (['\\', 'u', '0', '0', x, y] + rest)[6..] == rest;
  }

  lemma UnescapePlain(c: char, rest: string)
    requires c != '\\'
    ensures Unescape([c] + rest) == [c] + Unescape(rest)
  {
    assert ([c] + rest)[1..] == rest;
  }

  lemma ShortsMean(c: char)
    requires IsShort(c)
    ensures |EscapeChar(c)| == 2 && EscapeChar(c) == ['\\', EscapeChar(c)[1]]
    ensures EscapeChar(c)[1] != 'u' && ShortMeaning(EscapeChar(c)[1]) == c
  {
  }

  lemma UnescapeOne(c: char, rest: string)
    ensures Unescape(EscapeChar(c) + rest) == [c] + Unescape(rest)
  {
    hide Unescape, EscapeChar, IsShort, ShortMeaning;
    EscapeForms(c);
    if IsShort(c) {
      ShortsMean(c);
      UnescapeTwo(EscapeChar(c)[1], rest);
    } else if c < 32 as char {
      UnescapeSix(HexDigit(c as int / 16), HexDigit(c as int % 16), rest);
    } else {
      UnescapePlain(c, rest);
    }
  }

  /** An escaped text reads back as the text. */
  lemma {:induction false} EscapeReadsBack(s: string)
    ensures Unescape(Escape(s)) == s
  {
    if |s| > 0 {
      EscapeReadsBack(s[1..]);
      UnescapeOne(s[0], Escape(s[1..]));
      assert s == [s[0]] + s[1..];
    }
  }

  /** The number that decimal digits stand for. */
  function Value(t: string): int {
    if |t| == 0 then 0 else Value(t[..|t| - 1]) * 10 + (t[|t| - 1] as int - '0' as int)
  }

  /** A printed number reads back as the number, and starts with a zero only if it is zero. */
  lemma {:induction false} DigitsReadBack(n: nat)
    ensures Value(Digits(n)) == n
    ensures n > 0 ==> Digits(n)[0] != '0'
  {
    var d := Digits(n);
    assert "0123456789"[n % 10] as int == '0' as int + n % 10;
    if n >= 10 {
      DigitsReadBack(n / 10);
      assert d[..|d| - 1] == Digits(n / 10);
    } else {
      assert d[..0] == "";
    }
  }

  function Print(v: Json): string
    decreases v, 1, 0
  {
    match v
    case Null => "null"
    case Bool(b) => if b then "true" else "false"
    case Number(n) => Decimal(n)
    case Str(s) => Quote(s)
    case Arr(items) => "[" + PrintItems(v, items) + "]"
    case Obj(fields) =>
      SortFieldsMembers(fields);
      "{" + PrintFields(v, SortFields(fields)) + "}"
  }

  function PrintItems(parent: Json, items: seq<Json>): string
    requires forall i | 0 <= i < |items| :: items[i] < parent
    decreases parent, 0, |items|
  {
    if |items| == 0 then ""
    else if |items| == 1 then Print(items[0])
    else Print(items[0]) + "," + PrintItems(parent, items[1..])
  }

  function PrintField(parent: Json, f: Field): string
    requires f.value < parent
    decreases parent, 0, 0
  {
    Quote(f.key) + ":" + Print(f.value)
  }

  function PrintFields(parent: Json, fields: seq<Field>): string
    requires forall f | f in fields :: f.value < parent
    decreases parent, 0, |fields|
  {
    if |fields| == 0 then ""
    else if |fields| == 1 then PrintField(parent, fields[0])
    else PrintField(parent, fields[0]) + "," + PrintFields(parent, fields[1..])
  }

  /** What the printer writes between the parts of a document; a smaller key goes first wherever it stands. */
  lemma PrintedForms(v: Json, w: Json, k: string, l: string)
    requires Before(k, l)
    ensures Print(Null) == "null" && Print(Bool(true)) == "true" && Print(Bool(false)) == "false"
    ensures Print(Arr([v, w])) == "[" + (Print(v) + "," + Print(w)) + "]"
    ensures Print(Obj([Field(k, v), Field(l, w)])) == Print(Obj([Field(l, w), Field(k, v)]))
         == "{" + (Quote(k) + ":" + Print(v) + "," + (Quote(l) + ":" + Print(w))) + "}"
    ensures Quote(k) == "\"" + Escape(k) + "\""
  {
    PrintTwoItems(v, w);
    BeforeTotal(k, l);
    TwoSorted(Field(k, v), Field(l, w));
    PrintTwoFields(Obj([Field(k, v), Field(l, w)]), Field(k, v), Field(l, w));
    PrintTwoFields(Obj([Field(l, w), Field(k, v)]), Field(k, v), Field(l, w));
  }

  lemma PrintTwoItems(v: Json, w: Json)
    ensures Print(Arr([v, w])) == "[" + (Print(v) + "," + Print(w)) + "]"
  {
    var items := [v, w];
    var list := Arr(items);
    assert items[1..] == [w];
    assert PrintItems(list, [w]) == Print(w);
    assert PrintItems(list, items) == Print(v) + "," + PrintItems(list, items[1..]);
  }

  lemma PrintTwoFields(parent: Json, f: Field, g: Field)
    requires parent.Obj? && SortFields(parent.fields) == [f, g] && f.value < parent && g.value < parent
    ensures Print(parent) == "{" + (Quote(f.key) + ":" + Print(f.value) + "," + (Quote(g.key) + ":" + Print(g.value))) + "}"
  {
    hide SortFields, Quote;
    var fields := [f, g];
    assert fields[1..] == [g];
    assert PrintFields(parent, [g]) == PrintField(parent, g);
    assert PrintFields(parent, fields) == PrintField(parent, f) + "," + PrintFields(parent, fields[1..]);
  }

  lemma TwoSorted(f: Field, g: Field)
    requires Before(f.key, g.key) && !Before(g.key, f.key)
    ensures SortFields([f, g]) == SortFields([g, f]) == [f, g] && SortFields([]) == []
  {
    hide Before;
    assert [f, g][1..] == [g] && [g, f][1..] == [f] && [f][1..] == [] && [g][1..] == [];
    assert SortFields([f]) == [f] && SortFields([g]) == [g];
  }

  // ---------------------------------------------------------------- scalars read back uniquely

  /** The rest of a text after a printed value: nothing, or a character that ends any value. */
  predicate Ends(r: string) {
    |r| == 0 || r[0] == ',' || r[0] == ']' || r[0] == '}'
  }

  lemma Peel(c: char, x: string, d: char, y: string)
    requires [c] + x == [d] + y
    ensures c == d && x == y
  {
    assert ([c] + x)[0] == c && ([d] + y)[0] == d;
    assert ([c] + x)[1..] == x && ([d] + y)[1..] == y;
  }

  lemma Cut(a: string, x: string, b: string, y: string)
    requires a + x == b + y && |a| == |b|
    ensures a == b && x == y
  {
    assert (a + x)[..|a|] == a && (b + y)[..|b|] == b;
    assert (a + x)[|a|..] == x && (b + y)[|b|..] == y;
  }

  lemma SameStart(a: string, x: string, b: string, y: string)
    requires a + x == b + y && |a| > 0 && |b| > 0
    ensures a[0] == b[0]
  {
    assert (a + x)[0] == a[0] && (b + y)[0] == b[0];
  }

  lemma Join(a: string, b: string, c: string)
    ensures (a + b) + c == a + (b + c)
  {
  }

  predicate IsShort(c: char) {
    c in ['"', '\\', 8 as char, 9 as char, 10 as char, 12 as char, 13 as char]
  }

  /** The three forms of an escape: two characters, six, or the character itself. */
  lemma EscapeForms(c: char)
    ensures IsShort(c) ==> |EscapeChar(c)| == 2 && EscapeChar(c)[0] == '\\' && EscapeChar(c)[1] != 'u'
    ensures !IsShort(c) && c < 32 as char ==>
      EscapeChar(c) == ['\\', 'u', '0', '0', HexDigit(c as int / 16), HexDigit(c as int % 16)]
    ensures !IsShort(c) && c >= 32 as char ==> EscapeChar(c) == [c] && c != '\\'
  {
  }

  lemma ShortsDiffer(c: char, d: char)
    requires IsShort(c) && IsShort(d) && c != d
    ensures |EscapeChar(c)| == |EscapeChar(d)| == 2 && EscapeChar(c)[1] != EscapeChar(d)[1]
  {
  }

  /** Two different characters escape to texts that differ at a place both have. */
  lemma EscapesDiffer(c: char, d: char) returns (k: nat)
    requires c != d
    ensures k < |EscapeChar(c)| && k < |EscapeChar(d)| && EscapeChar(c)[k] != EscapeChar(d)[k]
  {
    EscapeForms(c);
    EscapeForms(d);
    hide EscapeChar, IsShort;
    if IsShort(c) && IsShort(d) {
      ShortsDiffer(c, d);
      k := 1;
    } else if EscapeChar(c)[0] != EscapeChar(d)[0] {
      k := 0;
    } else if IsShort(c) || IsShort(d) {
      k := 1;
    } else {
      k := if c as int / 16 != d as int / 16 then 4 else 5;
    }
  }

  lemma SamePlace(a: string, x: string, b: string, y: string, k: nat)
    requires a + x == b + y && k < |a| && k < |b|
    ensures a[k] == b[k]
  {
    assert (a + x)[k] == a[k] && (b + y)[k] == b[k];
  }

  lemma EscapeCharUnique(c: char, d: char, x: string, y: string)
    requires EscapeChar(c) + x == EscapeChar(d) + y
    ensures c == d && x == y
  {
    if c != d {
      var k := EscapesDiffer(c, d);
      SamePlace(EscapeChar(c), x, EscapeChar(d), y, k);
    } else {
      Cut(EscapeChar(c), x, EscapeChar(d), y);
    }
  }

  lemma EscapeCharStart(c: char)
    ensures |EscapeChar(c)| > 0 && EscapeChar(c)[0] != '"'
  {
  }

  /** An escaped string, its closing quote, and what follows. */
  function Closed(s: string, x: string): string {
    Escape(s) + (['"'] + x)
  }

  lemma ClosedStep(s: string, x: string)
    ensures if |s| == 0 then Closed(s, x) == ['"'] + x
            else Closed(s, x) == EscapeChar(s[0]) + Closed(s[1..], x) && Closed(s, x)[0] != '"'
  {
    if |s| > 0 {
      EscapeCharStart(s[0]);
      var e := EscapeChar(s[0]);
      assert Escape(s) == e + Escape(s[1..]);
      Join(e, Escape(s[1..]), ['"'] + x);
    }
  }

  lemma {:induction false} EscapeUnique(s: string, t: string, x: string, y: string)
    requires Closed(s, x) == Closed(t, y)
    ensures s == t && x == y
    decreases |s|
  {
    ClosedStep(s, x);
    ClosedStep(t, y);
    if |s| == 0 {
      Peel('"', x, '"', y);
    } else {
      EscapeCharUnique(s[0], t[0], Closed(s[1..], x), Closed(t[1..], y));
      EscapeUnique(s[1..], t[1..], x, y);
      assert s == [s[0]] + s[1..] && t == [t[0]] + t[1..];
    }
  }

  lemma QuoteText(s: string, x: string)
    ensures Quote(s) + x == ['"'] + Closed(s, x)
  {
  }

  lemma QuoteUnique(s: string, t: string, x: string, y: string)
    requires Quote(s) + x == Quote(t) + y
    ensures s == t && x == y
  {
    QuoteText(s, x);
    QuoteText(t, y);
    Peel('"', Closed(s, x), '"', Closed(t, y));
    EscapeUnique(s, t, x, y);
  }

  predicate IsDigit(c: char) { '0' <= c <= '9' }

  lemma {:induction false} DigitsAreDigits(n: nat)
    ensures forall c | c in Digits(n) :: IsDigit(c)
  {
    if n >= 10 { DigitsAreDigits(n / 10); }
  }

  lemma {:induction false} DigitsInjective(n: nat, m: nat)
    requires Digits(n) == Digits(m)
    ensures n == m
  {
    var d, e := Digits(n), Digits(m);
    assert d[|d| - 1] == "0123456789"[n % 10];
    assert e[|e| - 1] == "0123456789"[m % 10];
    assert n % 10 == m % 10;
    if n >= 10 && m >= 10 {
      assert d[..|d| - 1] == Digits(n / 10) && e[..|e| - 1] == Digits(m / 10);
      DigitsInjective(n / 10, m / 10);
    }
  }

  /** How many digits a text starts with. */
  function LeadingDigits(l: string): nat {
    if |l| > 0 && IsDigit(l[0]) then 1 + LeadingDigits(l[1..]) else 0
  }

  lemma {:induction false} LeadingDigitsOf(d: string, x: string)
    requires forall c | c in d :: IsDigit(c)
    requires |x| == 0 || !IsDigit(x[0])
    ensures LeadingDigits(d + x) == |d|
  {
    if |d| == 0 {
      assert d + x == x;
    } else {
      assert (d + x)[1..] == d[1..] + x;
      assert d[0] in d;
      LeadingDigitsOf(d[1..], x);
    }
  }

  lemma DigitsUnique(n: nat, m: nat, x: string, y: string)
    requires Digits(n) + x == Digits(m) + y
    requires |x| == 0 || !IsDigit(x[0])
    requires |y| == 0 || !IsDigit(y[0])
    ensures n == m && x == y
  {
    DigitsAreDigits(n);
    DigitsAreDigits(m);
    LeadingDigitsOf(Digits(n), x);
    LeadingDigitsOf(Digits(m), y);
    Cut(Digits(n), x, Digits(m), y);
    DigitsInjective(n, m);
  }

  /** A decimal number and what follows it, with the sign split off. */
  lemma DecimalText(n: int, x: string)
    ensures n < 0 ==> Decimal(n) + x == ['-'] + (Digits(-n) + x)
    ensures |Decimal(n)| > 0 && if n < 0 then Decimal(n)[0] == '-' else IsDigit(Decimal(n)[0])
  {
    if n < 0 {
      Join("-", Digits(-n), x);
    } else {
      DigitsAreDigits(n);
      assert Digits(n)[0] in Digits(n);
    }
  }

  lemma DecimalUnique(n: int, m: int, x: string, y: string)
    requires Decimal(n) + x == Decimal(m) + y
    requires |x| == 0 || !IsDigit(x[0])
    requires |y| == 0 || !IsDigit(y[0])
    ensures n == m && x == y
  {
    DecimalText(n, x);
    DecimalText(m, y);
    SameStart(Decimal(n), x, Decimal(m), y);
    if n < 0 && m < 0 {
      NegativeUnique(-n, -m, x, y);
    } else if n >= 0 && m >= 0 {
      DigitsUnique(n, m, x, y);
    } else {
      assert false;
    }
  }

  lemma NegativeUnique(n: nat, m: nat, x: string, y: string)
    requires ['-'] + (Digits(n) + x) == ['-'] + (Digits(m) + y)
    requires |x| == 0 || !IsDigit(x[0])
    requires |y| == 0 || !IsDigit(y[0])
    ensures n == m && x == y
  {
    Peel('-', Digits(n) + x, '-', Digits(m) + y);
    DigitsUnique(n, m, x, y);
  }

  /** The first character of a text tells which kind of value it starts with. */
  lemma PrintStart(v: Json, x: string)
    ensures |Print(v)| > 0 && (Print(v) + x)[0] == Print(v)[0]
    ensures match v
            case Null => Print(v)[0] == 'n'
            case Bool(b) => Print(v)[0] == if b then 't' else 'f'
            case Number(n) => Print(v)[0] == '-' || IsDigit(Print(v)[0])
            case Str(_) => Print(v)[0] == '"'
            case Arr(_) => Print(v)[0] == '['
            case Obj(_) => Print(v)[0] == '{'
  {
    if v.Number? {
      DecimalText(v.n, "");
      assert Decimal(v.n) + "" == Decimal(v.n);
    }
  }

  // ---------------------------------------------------------------- documents read back uniquely

  /** A printed document followed by an ending character can be read back in only one way. */
  lemma {:induction false} PrintUnique(v: Json, w: Json, x: string, y: string)
    requires Print(v) + x == Print(w) + y && Ends(x) && Ends(y)
    ensures Same(v, w) && x == y
    decreases v, 2, 0
  {
    PrintStart(v, x);
    PrintStart(w, y);
    if v.Arr? {
      ArrUnique(v, w, x, y);
    } else if v.Obj? {
      ObjUnique(v, w, x, y);
    } else if v.Number? {
      DecimalUnique(v.n, w.n, x, y);
    } else if v.Str? {
      QuoteUnique(v.s, w.s, x, y);
    } else {
      Cut(Print(v), x, Print(w), y);
    }
  }

  lemma ArrText(v: Json, x: string)
    requires v.Arr?
    ensures Print(v) + x == ['['] + (PrintItems(v, v.items) + ([']'] + x))
  {
    var p := PrintItems(v, v.items);
    assert Print(v) == "[" + p + "]";
    Join("[" + p, "]", x);
    Join("[", p, "]" + x);
  }

  lemma {:induction false} ArrUnique(v: Json, w: Json, x: string, y: string)
    requires v.Arr? && w.Arr?
    requires Print(v) + x == Print(w) + y && Ends(x) && Ends(y)
    ensures Same(v, w) && x == y
    decreases v, 1, 0
  {
    ArrText(v, x);
    ArrText(w, y);
    Peel('[', PrintItems(v, v.items) + ([']'] + x), '[', PrintItems(w, w.items) + ([']'] + y));
    ItemsUnique(v, w, v.items, w.items, x, y);
  }

  /** What follows the first item of a non-empty item list, up to and beyond the closing bracket. */
  function AfterItem(parent: Json, items: seq<Json>, x: string): string
    requires |items| > 0 && forall i | 0 <= i < |items| :: items[i] < parent
  {
    if |items| == 1 then [']'] + x else [','] + (PrintItems(parent, items[1..]) + ([']'] + x))
  }

  lemma ItemsText(parent: Json, items: seq<Json>, x: string)
    requires forall i | 0 <= i < |items| :: items[i] < parent
    ensures if |items| == 0 then PrintItems(parent, items) + ([']'] + x) == [']'] + x
            else PrintItems(parent, items) + ([']'] + x) == Print(items[0]) + AfterItem(parent, items, x)
  {
    if |items| > 1 {
      var p, rest := Print(items[0]), PrintItems(parent, items[1..]);
      assert PrintItems(parent, items) == p + "," + rest;
      Join(p + ",", rest, [']'] + x);
      Join(p, ",", rest + ([']'] + x));
    }
  }

  lemma {:induction false} ItemsUnique(v: Json, w: Json, a: seq<Json>, b: seq<Json>, x: string, y: string)
    requires forall i | 0 <= i < |a| :: a[i] < v
    requires forall i | 0 <= i < |b| :: b[i] < w
    requires PrintItems(v, a) + ([']'] + x) == PrintItems(w, b) + ([']'] + y)
    ensures |a| == |b| && (forall i | 0 <= i < |a| :: Same(a[i], b[i])) && x == y
    decreases v, 0, |a|
  {
    ItemsText(v, a, x);
    ItemsText(w, b, y);
    if |a| > 0 { PrintStart(a[0], AfterItem(v, a, x)); }
    if |b| > 0 { PrintStart(b[0], AfterItem(w, b, y)); }
    if |a| == 0 {
      Peel(']', x, ']', y);
    } else {
      PrintUnique(a[0], b[0], AfterItem(v, a, x), AfterItem(w, b, y));
      if |a| == 1 {
        Peel(']', x, ']', y);
      } else {
        Peel(',', PrintItems(v, a[1..]) + ([']'] + x), ',', PrintItems(w, b[1..]) + ([']'] + y));
        ItemsUnique(v, w, a[1..], b[1..], x, y);
        forall i | 0 < i < |a| ensures Same(a[i], b[i]) {
          assert a[i] == a[1..][i - 1] && b[i] == b[1..][i - 1];
        }
      }
    }
  }

  lemma ObjText(v: Json, x: string)
    requires v.Obj?
    ensures forall f | f in SortFields(v.fields) :: f.value < v
    ensures Print(v) + x == ['{'] + (PrintFields(v, SortFields(v.fields)) + (['}'] + x))
  {
    SortFieldsMembers(v.fields);
    var p := PrintFields(v, SortFields(v.fields));
    assert Print(v) == "{" + p + "}";
    Join("{" + p, "}", x);
    Join("{", p, "}" + x);
  }

  lemma {:induction false} ObjUnique(v: Json, w: Json, x: string, y: string)
    requires v.Obj? && w.Obj?
    requires Print(v) + x == Print(w) + y && Ends(x) && Ends(y)
    ensures Same(v, w) && x == y
    decreases v, 1, 0
  {
    ObjText(v, x);
    ObjText(w, y);
    var a, b := SortFields(v.fields), SortFields(w.fields);
    Peel('{', PrintFields(v, a) + (['}'] + x), '{', PrintFields(w, b) + (['}'] + y));
    FieldsUnique(v, w, a, b, x, y);
    SortFieldsMembers(v.fields);
    SortFieldsMembers(w.fields);
    SameFromSorted(v, w, a, b);
  }

  lemma SameFromSorted(v: Json, w: Json, a: seq<Field>, b: seq<Field>)
    requires v.Obj? && w.Obj?
    requires |a| == |v.fields| && forall f :: f in a <==> f in v.fields
    requires |b| == |w.fields| && forall f :: f in b <==> f in w.fields
    requires |a| == |b|
    requires forall i | 0 <= i < |a| :: a[i].key == b[i].key && Same(a[i].value, b[i].value)
    ensures Same(v, w)
  {
    var f, g := v.fields, w.fields;
    forall i | 0 <= i < |f| ensures HasSame(f[i], g) {
      assert f[i] in a;
      var k :| 0 <= k < |a| && a[k] == f[i];
      assert b[k] in g;
      var j :| 0 <= j < |g| && g[j] == b[k];
    }
  }

  /** What follows the first field of a non-empty field list, up to and beyond the closing brace. */
  function AfterField(parent: Json, fields: seq<Field>, x: string): string
    requires |fields| > 0 && forall f | f in fields :: f.value < parent
  {
    if |fields| == 1 then ['}'] + x else [','] + (PrintFields(parent, fields[1..]) + (['}'] + x))
  }

  lemma FieldsText(parent: Json, fields: seq<Field>, x: string)
    requires forall f | f in fields :: f.value < parent
    ensures |fields| == 0 ==> PrintFields(parent, fields) + (['}'] + x) == ['}'] + x
    ensures |fields| > 0 ==>
              PrintFields(parent, fields) + (['}'] + x)
              == Quote(fields[0].key) + ([':'] + (Print(fields[0].value) + AfterField(parent, fields, x)))
  {
    if |fields| > 0 {
      var k, p, rest := Quote(fields[0].key), Print(fields[0].value), AfterField(parent, fields, x);
      assert PrintField(parent, fields[0]) == k + ":" + p;
      if |fields| > 1 {
        var tail := PrintFields(parent, fields[1..]);
        assert PrintFields(parent, fields) == k + ":" + p + "," + tail;
        Join(k + ":" + p + ",", tail, ['}'] + x);
        Join(k + ":" + p, ",", tail + (['}'] + x));
      }
      assert PrintFields(parent, fields) + (['}'] + x) == (k + ":" + p) + rest;
      Join(k + ":", p, rest);
      Join(k, ":", p + rest);
    }
  }

  lemma {:induction false} FieldsUnique(v: Json, w: Json, a: seq<Field>, b: seq<Field>, x: string, y: string)
    requires forall f | f in a :: f.value < v
    requires forall f | f in b :: f.value < w
    requires PrintFields(v, a) + (['}'] + x) == PrintFields(w, b) + (['}'] + y)
    ensures |a| == |b| && x == y
    ensures forall i | 0 <= i < |a| :: a[i].key == b[i].key && Same(a[i].value, b[i].value)
    decreases v, 0, |a|
  {
    FieldsText(v, a, x);
    FieldsText(w, b, y);
    if |a| > 0 { QuoteText(a[0].key, [':'] + (Print(a[0].value) + AfterField(v, a, x))); }
    if |b| > 0 { QuoteText(b[0].key, [':'] + (Print(b[0].value) + AfterField(w, b, y))); }
    var l := PrintFields(v, a) + (['}'] + x);
    assert l[0] == if |a| == 0 then '}' else '"';
    assert l[0] == if |b| == 0 then '}' else '"';
    if |a| == 0 {
      Peel('}', x, '}', y);
    } else {
      var p, q := Print(a[0].value) + AfterField(v, a, x), Print(b[0].value) + AfterField(w, b, y);
      QuoteUnique(a[0].key, b[0].key, [':'] + p, [':'] + q);
      Peel(':', p, ':', q);
      PrintUnique(a[0].value, b[0].value, AfterField(v, a, x), AfterField(w, b, y));
      if |a| == 1 {
        Peel('}', x, '}', y);
      } else {
        Peel(',', PrintFields(v, a[1..]) + (['}'] + x), ',', PrintFields(w, b[1..]) + (['}'] + y));
        FieldsUnique(v, w, a[1..], b[1..], x, y);
        forall i | 0 < i < |a| ensures a[i].key == b[i].key && Same(a[i].value, b[i].value) {
          assert a[i] == a[1..][i - 1] && b[i] == b[1..][i - 1];
        }
      }
    }
  }

  // ---------------------------------------------------------------- same documents print alike

  ghost predicate Ascending(fs: seq<Field>) {
    forall i, j | 0 <= i < j < |fs| :: Before(fs[i].key, fs[j].key)
  }

  ghost predicate DistinctKeys(fs: seq<Field>) {
    forall i, j | 0 <= i < j < |fs| :: fs[i].key != fs[j].key
  }

  lemma InsertMembers(f: Field, fs: seq<Field>)
    ensures forall g :: g in Insert(f, fs) <==> g == f || g in fs
  {
    forall g ensures g in Insert(f, fs) <==> g == f || g in fs {
      assert g in Insert(f, fs) <==> g in multiset(Insert(f, fs));
    }
  }

  lemma AscendingCons(f: Field, fs: seq<Field>)
    requires Ascending(fs) && forall g | g in fs :: Before(f.key, g.key)
    ensures Ascending([f] + fs)
  {
  }

  lemma {:induction false} InsertAscending(f: Field, fs: seq<Field>)
    requires Ascending(fs)
    requires forall g | g in fs :: g.key != f.key
    ensures Ascending(Insert(f, fs))
  {
    if |fs| == 0 {
    } else if Before(f.key, fs[0].key) {
      forall g | g in fs ensures Before(f.key, g.key) {
        if g != fs[0] { BeforeTransitive(f.key, fs[0].key, g.key); }
      }
      AscendingCons(f, fs);
    } else {
      BeforeTotal(f.key, fs[0].key);
      InsertAscending(f, fs[1..]);
      InsertMembers(f, fs[1..]);
      AscendingCons(fs[0], Insert(f, fs[1..]));
    }
  }

  lemma {:induction false} SortFieldsAscending(fs: seq<Field>)
    requires DistinctKeys(fs)
    ensures Ascending(SortFields(fs))
  {
    if |fs| > 0 {
      SortFieldsAscending(fs[1..]);
      SortFieldsMembers(fs[1..]);
      forall g | g in SortFields(fs[1..]) ensures g.key != fs[0].key {
        assert g in fs[1..];
      }
      InsertAscending(fs[0], SortFields(fs[1..]));
    }
  }

  function Keys(fs: seq<Field>): (r: set<string>)
    ensures forall k :: k in r <==> exists i :: 0 <= i < |fs| && fs[i].key == k
  {
    set i | 0 <= i < |fs| :: fs[i].key
  }

  lemma {:induction false} KeysCount(fs: seq<Field>)
    requires DistinctKeys(fs)
    ensures |Keys(fs)| == |fs|
  {
    if |fs| > 0 {
      var n := |fs| - 1;
      KeysCount(fs[..n]);
      assert Keys(fs) == Keys(fs[..n]) + {fs[n].key};
      assert fs[n].key !in Keys(fs[..n]);
    }
  }

  /** Two ascending sequences over one set of keys list the keys in the same places. */
  lemma {:induction false} AscendingKeysAgree(a: seq<Field>, b: seq<Field>)
    requires Ascending(a) && Ascending(b) && |a| == |b| && Keys(a) == Keys(b)
    ensures forall i | 0 <= i < |a| :: a[i].key == b[i].key
  {
    if |a| > 0 {
      assert a[0].key in Keys(b) && b[0].key in Keys(a);
      var p :| 0 <= p < |b| && b[p].key == a[0].key;
      var q :| 0 <= q < |a| && a[q].key == b[0].key;
      BeforeTotal(a[0].key, b[0].key);
      assert a[0].key == b[0].key;
      forall k ensures k in Keys(a[1..]) <==> k in Keys(b[1..]) {
        RestKeys(a, k);
        RestKeys(b, k);
      }
      AscendingKeysAgree(a[1..], b[1..]);
      forall i | 0 <= i < |a| ensures a[i].key == b[i].key {
        if i > 0 { assert a[i] == a[1..][i - 1] && b[i] == b[1..][i - 1]; }
      }
    }
  }

  lemma RestKeys(a: seq<Field>, k: string)
    requires Ascending(a) && |a| > 0
    ensures k in Keys(a[1..]) <==> k in Keys(a) && k != a[0].key
  {
    if k in Keys(a[1..]) {
      var i :| 0 <= i < |a[1..]| && a[1..][i].key == k;
      assert a[i + 1].key == k;
      BeforeTotal(a[0].key, k);
    }
    if k in Keys(a) && k != a[0].key {
      var i :| 0 <= i < |a| && a[i].key == k;
      assert a[1..][i - 1].key == k;
    }
  }

  lemma SameKeys(v: Json, w: Json)
    requires v.Obj? && w.Obj? && DistinctKeys(v.fields) && DistinctKeys(w.fields) && Same(v, w)
    ensures Keys(v.fields) == Keys(w.fields)
  {
    var f, g := v.fields, w.fields;
    KeysCount(f);
    KeysCount(g);
    forall k | k in Keys(f) ensures k in Keys(g) {
      var i :| 0 <= i < |f| && f[i].key == k;
      assert HasSame(f[i], g);
      var j :| 0 <= j < |g| && f[i].key == g[j].key && Same(f[i].value, g[j].value);
    }
    SubsetSize(Keys(f), Keys(g));
  }

  lemma SortedKeysAgree(f: seq<Field>, g: seq<Field>)
    requires DistinctKeys(f) && DistinctKeys(g) && |f| == |g| && Keys(f) == Keys(g)
    ensures |SortFields(f)| == |f| && |SortFields(g)| == |g|
    ensures forall i | 0 <= i < |f| :: SortFields(f)[i].key == SortFields(g)[i].key
  {
    SortFieldsAscending(f);
    SortFieldsAscending(g);
    SortedKeys(f);
    SortedKeys(g);
    AscendingKeysAgree(SortFields(f), SortFields(g));
  }

  lemma SortedKeys(f: seq<Field>)
    ensures Keys(SortFields(f)) == Keys(f) && |SortFields(f)| == |f|
  {
    SortFieldsMembers(f);
    forall k ensures k in Keys(SortFields(f)) <==> k in Keys(f) {
      if k in Keys(SortFields(f)) {
        var i :| 0 <= i < |f| && SortFields(f)[i].key == k;
        assert SortFields(f)[i] in f;
      }
      if k in Keys(f) {
        var i :| 0 <= i < |f| && f[i].key == k;
        assert f[i] in SortFields(f);
      }
    }
  }

  lemma Counterpart(v: Json, w: Json, f: Field, h: Field)
    requires v.Obj? && w.Obj? && Valid(v) && Valid(w) && Same(v, w)
    requires f in v.fields && h in w.fields && f.key == h.key
    ensures Valid(f.value) && Valid(h.value) && Same(f.value, h.value)
  {
    var i :| 0 <= i < |v.fields| && v.fields[i] == f;
    assert HasSame(v.fields[i], w.fields);
    var j :| 0 <= j < |w.fields| && f.key == w.fields[j].key && Same(f.value, w.fields[j].value);
    var j' :| 0 <= j' < |w.fields| && w.fields[j'] == h;
    assert j == j';
  }

  lemma {:induction false} SamePrints(v: Json, w: Json)
    requires Valid(v) && Valid(w) && Same(v, w)
    ensures Print(v) == Print(w)
    decreases v
  {
    match v
    case Arr(items) =>
      forall i | 0 <= i < |items| ensures Print(items[i]) == Print(w.items[i]) {
        assert items[i] in items && w.items[i] in w.items;
        SamePrints(items[i], w.items[i]);
      }
      ItemsPrintAlike(v, w, items, w.items);
    case Obj(fields) =>
      var g := w.fields;
      SameKeys(v, w);
      SortedKeysAgree(fields, g);
      SortFieldsMembers(fields);
      SortFieldsMembers(g);
      var a, b := SortFields(fields), SortFields(g);
      forall k | 0 <= k < |a| ensures a[k].key == b[k].key && Print(a[k].value) == Print(b[k].value) {
        assert a[k] in fields && b[k] in g;
        Counterpart(v, w, a[k], b[k]);
        SamePrints(a[k].value, b[k].value);
      }
      FieldsPrintAlike(v, w, a, b);
    case _ =>
  }

  lemma {:induction false} ItemsPrintAlike(v: Json, w: Json, a: seq<Json>, b: seq<Json>)
    requires forall i | 0 <= i < |a| :: a[i] < v
    requires forall i | 0 <= i < |b| :: b[i] < w
    requires |a| == |b| && forall i | 0 <= i < |a| :: Print(a[i]) == Print(b[i])
    ensures PrintItems(v, a) == PrintItems(w, b)
    decreases |a|
  {
    if |a| > 1 { ItemsPrintAlike(v, w, a[1..], b[1..]); }
  }

  lemma {:induction false} FieldsPrintAlike(v: Json, w: Json, a: seq<Field>, b: seq<Field>)
    requires forall f | f in a :: f.value < v
    requires forall f | f in b :: f.value < w
    requires |a| == |b|
    requires forall i | 0 <= i < |a| :: a[i].key == b[i].key && Print(a[i].value) == Print(b[i].value)
    ensures PrintFields(v, a) == PrintFields(w, b)
    decreases |a|
  {
    if |a| > 1 { FieldsPrintAlike(v, w, a[1..], b[1..]); }
  }

  /** Two documents have one canonical text exactly when they differ at most in the order of keys. */
  lemma CanonicalTextIdentifies(v: Json, w: Json)
    requires Valid(v) && Valid(w)
    ensures Print(v) == Print(w) <==> Same(v, w)
  {
    if Print(v) == Print(w) {
      assert Print(v) + "" == Print(w) + "";
      PrintUnique(v, w, "", "");
    }
    if Same(v, w) { SamePrints(v, w); }
  }

  // ---------------------------------------------------------------- cache keys

  datatype Route = Interpret | Respond

  function RouteName(route: Route): string {
    match route case Interpret => "interpret" case Respond => "respond"
  }

  /** What a cache key is made from. */
  datatype KeyInput = KeyInput(
    route: Route, provider: string, model: string, requestType: string, instruction: string, input: Json)

  function KeyDocument(k: KeyInput, lower: string -> string): Json {
    Obj([
      Field("schema_version", Str("llm_adapter_cache.v1")),
      Field("route", Str(RouteName(k.route))),
      Field("request_type", Str(k.requestType)),
      Field("provider", Str(lower(k.provider))),
      Field("model", Str(k.model)),
      Field("instruction", Str(k.instruction)),
      Field("input", k.input)
    ])
  }

  /** The text whose SHA-256 digest is the cache key. */
  function KeyText(k: KeyInput, lower: string -> string): string {
    Print(KeyDocument(k, lower))
  }

  /** What two key inputs have in common when they stand for the same request. */
  ghost predicate SameRequest(a: KeyInput, b: KeyInput, lower: string -> string) {
    && a.route == b.route
    && lower(a.provider) == lower(b.provider)
    && a.model == b.model
    && a.requestType == b.requestType
    && a.instruction == b.instruction
    && Same(a.input, b.input)
  }

  const KEY_NAMES := ["schema_version", "route", "request_type", "provider", "model", "instruction", "input"]

  lemma KeyNamesDistinct()
    ensures forall i, j | 0 <= i < j < |KEY_NAMES| :: KEY_NAMES[i] != KEY_NAMES[j]
  {
    var n := KEY_NAMES;
    assert |n[0]| == 14 && |n[1]| == 5 && |n[2]| == 12 && |n[3]| == 8 && |n[4]| == 5 && |n[5]| == 11 && |n[6]| == 5;
    assert n[1][0] == 'r' && n[4][0] == 'm' && n[6][0] == 'i';
  }

  lemma KeyDocumentFields(k: KeyInput, lower: string -> string)
    ensures |KeyDocument(k, lower).fields| == 7
    ensures forall i | 0 <= i < 7 :: KeyDocument(k, lower).fields[i] == Field(KEY_NAMES[i], KeyValues(k, lower)[i])
  {
  }

  lemma KeyDocumentValid(k: KeyInput, lower: string -> string)
    requires Valid(k.input)
    ensures Valid(KeyDocument(k, lower))
    ensures |KeyDocument(k, lower).fields| == 7
    ensures forall i | 0 <= i < 7 :: KeyDocument(k, lower).fields[i] == Field(KEY_NAMES[i], KeyValues(k, lower)[i])
  {
    KeyDocumentFields(k, lower);
    KeyNamesDistinct();
    assert forall v | v in KeyValues(k, lower) :: Valid(v);
    ValidByPosition(KeyDocument(k, lower), KEY_NAMES, KeyValues(k, lower));
  }

  /** An object with distinct names and valid values is valid. */
  lemma ValidByPosition(v: Json, names: seq<string>, values: seq<Json>)
    requires v.Obj? && |v.fields| == |names| == |values|
    requires forall i | 0 <= i < |names| :: v.fields[i] == Field(names[i], values[i])
    requires forall i, j | 0 <= i < j < |names| :: names[i] != names[j]
    requires forall w | w in values :: Valid(w)
    ensures Valid(v)
  {
    forall f | f in v.fields ensures Valid(f.value) {
      var i :| 0 <= i < |v.fields| && v.fields[i] == f;
      assert values[i] in values;
    }
  }

  /** Two objects with distinct names in the same places are the same when their values are, place by place. */
  lemma SameByPosition(v: Json, w: Json, names: seq<string>)
    requires v.Obj? && w.Obj? && |v.fields| == |w.fields| == |names|
    requires forall i, j | 0 <= i < j < |names| :: names[i] != names[j]
    requires forall i | 0 <= i < |names| :: v.fields[i].key == w.fields[i].key == names[i]
    ensures Same(v, w) <==> forall i | 0 <= i < |names| :: Same(v.fields[i].value, w.fields[i].value)
  {
    var f, g := v.fields, w.fields;
    if Same(v, w) {
      forall i | 0 <= i < |names| ensures Same(f[i].value, g[i].value) {
        assert HasSame(f[i], g);
        var j :| 0 <= j < |g| && f[i].key == g[j].key && Same(f[i].value, g[j].value);
        assert names[i] == names[j];
      }
    }
    if forall i | 0 <= i < |names| :: Same(f[i].value, g[i].value) {
      forall i | 0 <= i < |f| ensures HasSame(f[i], g) {
        assert f[i].key == g[i].key && Same(f[i].value, g[i].value);
      }
    }
  }

  function KeyValues(k: KeyInput, lower: string -> string): seq<Json> {
    [Str("llm_adapter_cache.v1"), Str(RouteName(k.route)), Str(k.requestType), Str(lower(k.provider)),
     Str(k.model), Str(k.instruction), k.input]
  }

  lemma KeyValuesSame(a: KeyInput, b: KeyInput, lower: string -> string)
    ensures (forall i | 0 <= i < 7 :: Same(KeyValues(a, lower)[i], KeyValues(b, lower)[i]))
            <==> SameRequest(a, b, lower)
  {
    var f, g := KeyValues(a, lower), KeyValues(b, lower);
    assert RouteName(a.route)[0] == if a.route.Interpret? then 'i' else 'r';
    assert RouteName(b.route)[0] == if b.route.Interpret? then 'i' else 'r';
    assert (forall i | 0 <= i < 7 :: Same(f[i], g[i])) <==>
      && Same(f[1], g[1]) && Same(f[2], g[2]) && Same(f[3], g[3])
      && Same(f[4], g[4]) && Same(f[5], g[5]) && Same(f[6], g[6]);
  }

  /** The hashed text fixes the request, and nothing but the request. */
  lemma KeyTextIdentifies(a: KeyInput, b: KeyInput, lower: string -> string)
    requires Valid(a.input) && Valid(b.input)
    ensures KeyText(a, lower) == KeyText(b, lower) <==> SameRequest(a, b, lower)
  {
    KeyDocumentValid(a, lower);
    KeyDocumentValid(b, lower);
    CanonicalTextIdentifies(KeyDocument(a, lower), KeyDocument(b, lower));
    KeyDocumentSame(KeyDocument(a, lower), KeyDocument(b, lower), KeyValues(a, lower), KeyValues(b, lower));
    KeyValuesSame(a, b, lower);
  }

  lemma KeyDocumentSame(v: Json, w: Json, a: seq<Json>, b: seq<Json>)
    requires v.Obj? && w.Obj? && |v.fields| == |w.fields| == |a| == |b| == 7
    requires forall i | 0 <= i < 7 :: v.fields[i] == Field(KEY_NAMES[i], a[i]) && w.fields[i] == Field(KEY_NAMES[i], b[i])
    ensures Same(v, w) <==> forall i | 0 <= i < 7 :: Same(a[i], b[i])
  {
    KeyNamesDistinct();
    var names := KEY_NAMES;
    SameByPosition(v, w, names);
    assert forall i | 0 <= i < 7 :: v.fields[i].value == a[i] && w.fields[i].value == b[i];
  }
}
