/** internal/processor/normalizer.go: ParseSalary, its three patterns and its amount arithmetic. */
module Salary {
  import opened Prelude
  import opened Decimal
  import opened Strings

  // ---- The character classes and pieces of the patterns ----

  // [\d.]
  predicate InNumber(c: char) {
    IsDigit(c) || c == '.'
  }

  // [-–]
  predicate IsDash(c: char) {
    c == '-' || c == '\U{2013}'
  }

  // [€$£]
  predicate IsSymbol(c: char) {
    c == '\U{20AC}' || c == '$' || c == '\U{A3}'
  }

  const EURO := "\U{20AC}"

  function NumberRun(s: string, i: nat): (e: nat)
    requires i <= |s|
    ensures i <= e <= |s|
    decreases |s| - i
  {
    if i < |s| && InNumber(s[i]) then NumberRun(s, i + 1) else i
  }

  function DigitRun(s: string, i: nat): (e: nat)
    requires i <= |s|
    ensures i <= e <= |s|
    decreases |s| - i
  {
    if i < |s| && IsDigit(s[i]) then DigitRun(s, i + 1) else i
  }

  function BlankRun(s: string, i: nat): (e: nat)
    requires i <= |s|
    ensures i <= e <= |s|
    decreases |s| - i
  {
    if i < |s| && IsBlank(s[i]) then BlankRun(s, i + 1) else i
  }

  /** \d[\d.]+ at i, greedily; None when it does not match there. */
  function Number(s: string, i: nat): (e: Option<nat>)
    requires i <= |s|
    ensures e.Some? ==> i + 2 <= e.value <= |s|
  {
    if i < |s| && IsDigit(s[i]) && NumberRun(s, i + 1) > i + 1 then Some(NumberRun(s, i + 1)) else None
  }

  predicate At(s: string, i: nat, word: string) {
    i + |word| <= |s| && s[i..i + |word|] == word
  }

  /** (€|EUR|CHF|GBP|USD)? at i. */
  function CurrencyAt(s: string, i: nat): string {
    if At(s, i, EURO) then EURO else if At(s, i, "EUR") then "EUR" else if At(s, i, "CHF") then "CHF"
    else if At(s, i, "GBP") then "GBP" else if At(s, i, "USD") then "USD" else ""
  }

  // ---- "60.000 – 80.000 €" ----

  /** The spans of the two amounts and the currency of a match. */
  datatype Range = Range(from: nat, mid: nat, start: nat, end: nat, currency: string)

  /** The end of the first amount and the span of the second. */
  function MatchAmounts(s: string, i: nat): (r: Option<(nat, nat, nat)>)
    requires i <= |s|
    ensures r.Some? ==> i < r.value.0 < r.value.1 < r.value.2 <= |s|
  {
    var first := Number(s, i);
    if first.None? then None
    else
      var d := BlankRun(s, first.value);
      if d == |s| || !IsDash(s[d]) then None
      else
        var j := BlankRun(s, d + 1);
        var second := Number(s, j);
        if second.None? then None else Some((first.value, j, second.value))
  }

  function MatchRange(s: string, i: nat): (r: Option<Range>)
    requires i <= |s|
    ensures r.Some? ==> r.value.from == i && i < r.value.mid < r.value.start < r.value.end <= |s|
  {
    match MatchAmounts(s, i)
    case None => None
    case Some((mid, start, end)) => Some(Range(i, mid, start, end, CurrencyAt(s, BlankRun(s, end))))
  }

  function FindRange(s: string, i: nat): (r: Option<Range>)
    requires i <= |s|
    ensures r.Some? ==> r.value.mid <= |s| && r.value.from < r.value.mid < r.value.start < r.value.end <= |s|
    decreases |s| - i
  {
    if MatchRange(s, i).Some? then MatchRange(s, i) else if i < |s| then FindRange(s, i + 1) else None
  }

  ghost predicate NumberChars(s: string, i: nat, e: nat)
    requires e <= |s|
  {
    forall k :: i <= k < e ==> InNumber(s[k])
  }

  ghost predicate Blanks(s: string, i: nat, e: nat)
    requires e <= |s|
  {
    forall k :: i <= k < e ==> IsBlank(s[k])
  }

  /** What the pattern means: any split of the text into its pieces, before greed and priority. */
  ghost predicate Splits(s: string, i: nat, mid: nat, dash: nat, start: nat, end: nat) {
    && i + 2 <= mid <= dash < start && start + 2 <= end <= |s|
    && IsDigit(s[i]) && NumberChars(s, i, mid)
    && Blanks(s, mid, dash) && IsDash(s[dash]) && Blanks(s, dash + 1, start)
    && IsDigit(s[start]) && NumberChars(s, start, end)
  }

  // ---- "€60k - €80k" ----

  function MatchShort(s: string, i: nat): (r: Option<(nat, nat, nat, nat)>)
    requires i <= |s|
    ensures r.Some? ==> r.value.0 <= r.value.1 <= |s| && r.value.2 <= r.value.3 <= |s| && i < |s|
  {
    if i == |s| || !IsSymbol(s[i]) then None
    else
      var a := BlankRun(s, i + 1);
      var b := DigitRun(s, a);
      var afterK := if b < |s| && s[b] == 'k' then b + 1 else b;
      var d := BlankRun(s, afterK);
      if a == b || d == |s| || !IsDash(s[d]) then None
      else
        var e := BlankRun(s, d + 1);
        var f := if e < |s| && IsSymbol(s[e]) then BlankRun(s, e + 1) else e;
        var g := DigitRun(s, f);
        if f == g then None else Some((a, b, f, g))
  }

  function FindShort(s: string, i: nat): (r: Option<(nat, (nat, nat, nat, nat))>)
    requires i <= |s|
    ensures r.Some? ==> var (at, m) := r.value; at < |s| && m.0 <= m.1 <= |s| && m.2 <= m.3 <= |s|
    decreases |s| - i
  {
    if MatchShort(s, i).Some? then Some((i, MatchShort(s, i).value)) else if i < |s| then FindShort(s, i + 1) else None
  }

  // ---- "up to 90.000 €", in any case ----

  function Fold(c: char): char {
    if 'A' <= c <= 'Z' then (c as int + 32) as char else if c == '\U{17F}' then 's' else c
  }

  function FoldAll(s: string): string {
    seq(|s|, i requires 0 <= i < |s| => Fold(s[i]))
  }

  predicate AtFold(s: string, i: nat, word: string) {
    i + |word| <= |s| && FoldAll(s[i..i + |word|]) == word
  }

  function OneOfFold(s: string, i: nat, words: seq<string>): string {
    if words == [] then ""
    else if AtFold(s, i, words[0]) then s[i..i + |words[0]|]
    else OneOfFold(s, i, words[1..])
  }

  function MatchUpTo(s: string, i: nat): (r: Option<(nat, nat, string)>)
    requires i <= |s|
    ensures r.Some? ==> r.value.0 <= r.value.1 <= |s|
  {
    if !AtFold(s, i, "up") then None
    else
      var a := BlankRun(s, i + 2);
      if a == i + 2 || !AtFold(s, a, "to") then None
      else
        var b := BlankRun(s, a + 2);
        var amount := Number(s, b);
        if b == a + 2 || amount.None? then None
        else Some((b, amount.value, OneOfFold(s, BlankRun(s, amount.value), [EURO, "eur", "usd", "gbp"])))
  }

  function FindUpTo(s: string, i: nat): (r: Option<(nat, nat, string)>)
    requires i <= |s|
    ensures r.Some? ==> r.value.0 <= r.value.1 <= |s|
    decreases |s| - i
  {
    if MatchUpTo(s, i).Some? then MatchUpTo(s, i) else if i < |s| then FindUpTo(s, i + 1) else None
  }

  // ---- Amounts and currencies ----

  function DropSeparators(s: string): string {
    if s == "" then ""
    else if s[0] == '.' || s[0] == ',' then DropSeparators(s[1..])
    else [s[0]] + DropSeparators(s[1..])
  }

  /** Atoi on the digits: an out-of-range value is clamped, and anything else reads as 0. */
  function ParseAmount(s: string): (n: int)
    ensures 0 <= n <= MAX_INT64
  {
    var digits := DropSeparators(s);
    if digits == "" || !AllDigits(digits) then 0
    else if ParseNat(digits) > MAX_INT64 then MAX_INT64
    else ParseNat(digits)
  }

  function NormaliseCurrency(s: string): string {
    if s == "$" || s == "USD" then "USD"
    else if s == "\U{A3}" || s == "GBP" then "GBP"
    else if s == "CHF" then "CHF"
    else "EUR"
  }

  datatype Parsed = Parsed(min: Option<int>, max: Option<int>, currency: string)

  function ParseSalary(text: string): Parsed {
    if text == "" then Parsed(None, None, "")
    else
      var range := FindRange(text, 0);
      if range.Some? then
        var m := range.value;
        Parsed(Some(ParseAmount(text[m.from..m.mid])), Some(ParseAmount(text[m.start..m.end])),
               if m.currency == "" then "EUR" else NormaliseCurrency(m.currency))
      else
        var short := FindShort(text, 0);
        if short.Some? then
          var (at, m) := short.value;
          Parsed(Some(Wrap64(ParseAmount(text[m.0..m.1]) * 1000)), Some(Wrap64(ParseAmount(text[m.2..m.3]) * 1000)),
                 NormaliseCurrency([text[at]]))
        else
          var upTo := FindUpTo(text, 0);
          if upTo.Some? then
            var (a, b, currency) := upTo.value;
            Parsed(None, Some(ParseAmount(text[a..b])), if currency == "" then "EUR" else NormaliseCurrency(currency))
          else Parsed(None, None, "")
  }

  // ---- The scanner finds what the pattern means ----

  lemma {:induction false} NumberRunEnds(s: string, i: nat, e: nat)
    requires i <= e <= |s| && NumberChars(s, i, e) && (e < |s| ==> !InNumber(s[e]))
    ensures NumberRun(s, i) == e
    decreases e - i
  {
    if i < e {
      NumberRunEnds(s, i + 1, e);
    }
  }

  lemma {:induction false} NumberRunIs(s: string, i: nat)
    requires i <= |s|
    ensures var e := NumberRun(s, i); NumberChars(s, i, e) && (e < |s| ==> !InNumber(s[e]))
    decreases |s| - i
  {
    if i < |s| && InNumber(s[i]) {
      NumberRunIs(s, i + 1);
    }
  }

  lemma {:induction false} BlankRunEnds(s: string, i: nat, e: nat)
    requires i <= e <= |s| && Blanks(s, i, e) && (e < |s| ==> !IsBlank(s[e]))
    ensures BlankRun(s, i) == e
    decreases e - i
  {
    if i < e {
      BlankRunEnds(s, i + 1, e);
    }
  }

  lemma {:induction false} BlankRunIs(s: string, i: nat)
    requires i <= |s|
    ensures var e := BlankRun(s, i); Blanks(s, i, e) && (e < |s| ==> !IsBlank(s[e]))
    decreases |s| - i
  {
    if i < |s| && IsBlank(s[i]) {
      BlankRunIs(s, i + 1);
    }
  }

  lemma MatchSplits(s: string, i: nat)
    requires i <= |s| && MatchAmounts(s, i).Some?
    ensures var (mid, start, end) := MatchAmounts(s, i).value; Splits(s, i, mid, BlankRun(s, mid), start, end)
  {
    var (mid, start, end) := MatchAmounts(s, i).value;
    NumberRunIs(s, i + 1);
    BlankRunIs(s, mid);
    BlankRunIs(s, BlankRun(s, mid) + 1);
    NumberRunIs(s, start + 1);
  }

  lemma NumberIs(s: string, i: nat, e: nat)
    requires i + 2 <= e <= |s| && IsDigit(s[i]) && NumberChars(s, i, e) && (e < |s| ==> !InNumber(s[e]))
    ensures Number(s, i) == Some(e)
  {
    NumberRunEnds(s, i + 1, e);
  }

  /** A split whose second amount is as long as possible is the scanner's match. */
  lemma LongestSplitIsTheMatch(s: string, i: nat, mid: nat, dash: nat, start: nat, end: nat)
    requires Splits(s, i, mid, dash, start, end) && (end < |s| ==> !InNumber(s[end]))
    ensures MatchAmounts(s, i) == Some((mid, start, end))
  {
    assert !InNumber(s[mid]);
    NumberIs(s, i, mid);
    BlankRunEnds(s, mid, dash);
    BlankRunEnds(s, dash + 1, start);
    NumberIs(s, start, end);
  }

  /** The pattern matches at i exactly when the scanner does; then every split has the scanner's first
      amount and start of the second, and the scanner's second amount is the longest. So trying other
      splits, as a backtracking matcher would, finds nothing else. */
  lemma ScannerIsThePattern(s: string, i: nat, mid: nat, dash: nat, start: nat, end: nat)
    requires Splits(s, i, mid, dash, start, end)
    ensures MatchAmounts(s, i).Some?
    ensures var m := MatchAmounts(s, i).value;
            m.0 == mid && m.1 == start && m.2 >= end && Splits(s, i, m.0, dash, m.1, m.2)
  {
    NumberRunIs(s, start + 1);
    var e := NumberRun(s, start + 1);
    assert e >= end;
    LongestSplitIsTheMatch(s, i, mid, dash, start, e);
  }

  // ---- Round trip ----

  function Pad3(r: nat): (s: string)
    requires r < 1000
    ensures |s| == 3 && AllDigits(s)
  {
    [DigitChar(r / 100), DigitChar(r / 10 % 10), DigitChar(r % 10)]
  }

  /** German thousands grouping: 1234567 as "1.234.567". */
  function Thousands(n: nat): (s: string)
    ensures s != "" && IsDigit(s[0]) && forall i :: 0 <= i < |s| ==> InNumber(s[i])
  {
    if n < 1000 then PrintNat(n) else Thousands(n / 1000) + "." + Pad3(n % 1000)
  }

  lemma {:induction false} DropConcat(a: string, b: string)
    ensures DropSeparators(a + b) == DropSeparators(a) + DropSeparators(b)
  {
    if a == "" {
      assert a + b == b;
    } else {
      DropConcat(a[1..], b);
      assert (a + b)[1..] == a[1..] + b && (a + b)[0] == a[0];
    }
  }

  lemma {:induction false} DropDigits(s: string)
    requires AllDigits(s)
    ensures DropSeparators(s) == s
  {
    if s != "" {
      DropDigits(s[1..]);
    }
  }

  lemma ParseAppend(s: string, c: char)
    requires AllDigits(s) && IsDigit(c)
    ensures AllDigits(s + [c]) && ParseNat(s + [c]) == 10 * ParseNat(s) + DigitValue(c)
  {
    assert Front(s + [c]) == s;
  }

  lemma ParsePad3(s: string, r: nat)
    requires AllDigits(s) && r < 1000
    ensures AllDigits(s + Pad3(r)) && ParseNat(s + Pad3(r)) == 1000 * ParseNat(s) + r
  {
    var p := Pad3(r);
    var s1 := s + [p[0]];
    var s2 := s1 + [p[1]];
    ParseAppend(s, p[0]);
    ParseAppend(s1, p[1]);
    ParseAppend(s2, p[2]);
    assert s + p == s2 + [p[2]];
    ThreeDigits(r);
  }

  lemma ThreeDigits(r: nat)
    ensures r == 100 * (r / 100) + 10 * (r / 10 % 10) + r % 10
  {
    assert r / 10 == 10 * (r / 100) + r / 10 % 10;
  }

  /** Dropping the dots of a grouped number leaves digits that read as the number. */
  lemma {:induction false} ParseThousands(n: nat)
    ensures var digits := DropSeparators(Thousands(n)); digits != "" && AllDigits(digits) && ParseNat(digits) == n
  {
    if n < 1000 {
      DropDigits(PrintNat(n));
      ParsePrintNat(n);
    } else {
      ParseThousands(n / 1000);
      var high, low := Thousands(n / 1000), Pad3(n % 1000);
      DropConcat(high + ".", low);
      DropConcat(high, ".");
      DropDigits(low);
      assert DropSeparators(".") == "";
      assert DropSeparators(high) + "" == DropSeparators(high);
      assert DropSeparators(Thousands(n)) == DropSeparators(high) + low;
      ParsePad3(DropSeparators(high), n % 1000);
      assert 1000 * (n / 1000) + n % 1000 == n;
    }
  }

  lemma ThousandsLength(n: nat)
    ensures |Thousands(n)| >= 2 <==> n >= 10
  {
  }

  /** "a - b cur" with either dash; the currency may be empty. */
  function Text(a: nat, b: nat, dash: char, currency: string): string {
    Thousands(a) + [' ', dash, ' '] + Thousands(b) + " " + currency
  }

  ghost predicate IsCurrency(c: string) {
    c == "" || c == EURO || c == "EUR" || c == "CHF" || c == "GBP" || c == "USD"
  }

  /** The text is the two amounts, blanks, one dash, and a currency. */
  ghost predicate IsText(s: string, a: string, b: string, currency: string) {
    var p, q := |a|, |a| + 3 + |b|;
    && a != "" && b != "" && IsDigit(a[0]) && IsDigit(b[0]) && NumberChars(a, 0, |a|) && NumberChars(b, 0, |b|)
    && |s| == q + 1 + |currency| && s[0..p] == a && s[p + 3..q] == b && s[q + 1..] == currency
    && s[p] == ' ' && IsDash(s[p + 1]) && s[p + 2] == ' ' && s[q] == ' '
  }

  lemma PartsAreText(a: string, b: string, dash: char, currency: string)
    requires a != "" && b != "" && IsDigit(a[0]) && IsDigit(b[0]) && NumberChars(a, 0, |a|)
             && NumberChars(b, 0, |b|) && IsDash(dash)
    ensures IsText(a + [' ', dash, ' '] + b + " " + currency, a, b, currency)
  {
    var s, p, q := a + [' ', dash, ' '] + b + " " + currency, |a|, |a| + 3 + |b|;
    assert s == a + ([' ', dash, ' '] + b + " " + currency);
    assert s[0..p] == a && s[p + 3..q] == b && s[q + 1..] == currency;
  }

  lemma AtStarts(s: string, i: nat, word: string)
    requires word != "" && At(s, i, word)
    ensures s[i] == word[0]
  {
    assert s[i..i + |word|][0] == s[i];
  }

  lemma CurrencyStands(s: string, i: nat, currency: string)
    requires i <= |s| && s[i..] == currency && IsCurrency(currency)
    ensures CurrencyAt(s, i) == currency
  {
    if currency != "" {
      assert s[i..i + |currency|] == currency;
      if At(s, i, EURO) { AtStarts(s, i, EURO); }
      if At(s, i, "EUR") { AtStarts(s, i, "EUR"); }
      if At(s, i, "CHF") { AtStarts(s, i, "CHF"); }
      if At(s, i, "GBP") { AtStarts(s, i, "GBP"); }
      if At(s, i, "USD") { AtStarts(s, i, "USD"); }
      AtStarts(s, i, currency);
    }
  }

  lemma TextChars(s: string, a: string, b: string, currency: string)
    requires IsText(s, a, b, currency)
    ensures var p, q := |a|, |a| + 3 + |b|;
            NumberChars(s, 0, p) && NumberChars(s, p + 3, q) && IsDigit(s[0]) && IsDigit(s[p + 3])
            && forall k :: q < k < |s| ==> s[k] == currency[k - q - 1]
  {
    var p, q := |a|, |a| + 3 + |b|;
    assert forall k :: 0 <= k < p ==> s[k] == s[0..p][k];
    assert forall k :: p + 3 <= k < q ==> s[k] == s[p + 3..q][k - p - 3];
    assert forall k :: q < k < |s| ==> s[k] == s[q + 1..][k - q - 1];
  }

  lemma PartsMatch(s: string, a: string, b: string, currency: string)
    requires |a| >= 2 && |b| >= 2 && IsText(s, a, b, currency) && IsCurrency(currency)
    ensures MatchRange(s, 0) == Some(Range(0, |a|, |a| + 3, |a| + 3 + |b|, currency))
  {
    var p, q := |a|, |a| + 3 + |b|;
    TextChars(s, a, b, currency);
    LongestSplitIsTheMatch(s, 0, p, p + 1, p + 3, q);
    CurrencyFollows(s, q, currency);
  }

  lemma CurrencyFollows(s: string, q: nat, currency: string)
    requires q < |s| && s[q] == ' ' && s[q + 1..] == currency && IsCurrency(currency)
    ensures CurrencyAt(s, BlankRun(s, q)) == currency
  {
    if currency != "" { assert s[q + 1] == currency[0]; }
    BlankRunEnds(s, q, q + 1);
    CurrencyStands(s, q + 1, currency);
  }

  /** The amount, or the largest int when it does not fit one. */
  function Clamped(n: nat): int {
    if n > MAX_INT64 then MAX_INT64 else n
  }

  /** Salary round trip: printed amounts of at least two digits come back exactly, with the currency; those
      that do not fit an int come back as the largest. */
  lemma SalaryRoundTrip(a: nat, b: nat, dash: char, currency: string)
    requires 10 <= a && 10 <= b && IsDash(dash) && IsCurrency(currency)
    ensures ParseSalary(Text(a, b, dash, currency))
         == Parsed(Some(Clamped(a)), Some(Clamped(b)), if currency == "" || currency == EURO then "EUR" else currency)
  {
    ThousandsLength(a);
    ThousandsLength(b);
    PartsAreText(Thousands(a), Thousands(b), dash, currency);
    PartsParse(Text(a, b, dash, currency), Thousands(a), Thousands(b), currency);
    AmountOfThousands(a);
    AmountOfThousands(b);
  }

  lemma CurrencyIsNormal(currency: string)
    requires IsCurrency(currency) && currency != ""
    ensures NormaliseCurrency(currency) == if currency == EURO then "EUR" else currency
  {
  }

  lemma FirstMatchDecides(s: string, a: string, b: string, m: Range)
    requires s != "" && MatchRange(s, 0) == Some(m) && s[0..m.mid] == a && s[m.start..m.end] == b
    ensures ParseSalary(s) == Parsed(Some(ParseAmount(a)), Some(ParseAmount(b)),
                                     if m.currency == "" then "EUR" else NormaliseCurrency(m.currency))
  {
    assert FindRange(s, 0) == Some(m);
  }

  lemma PartsParse(s: string, a: string, b: string, currency: string)
    requires |a| >= 2 && |b| >= 2 && IsText(s, a, b, currency) && IsCurrency(currency)
    ensures ParseSalary(s) == Parsed(Some(ParseAmount(a)), Some(ParseAmount(b)),
                                     if currency == "" || currency == EURO then "EUR" else currency)
  {
    PartsMatch(s, a, b, currency);
    FirstMatchDecides(s, a, b, Range(0, |a|, |a| + 3, |a| + 3 + |b|, currency));
    if currency != "" { CurrencyIsNormal(currency); }
  }

  lemma AmountOfThousands(n: nat)
    ensures ParseAmount(Thousands(n)) == Clamped(n)
  {
    ParseThousands(n);
  }

  // ---- One-digit amounts ----

  lemma CurrencyChars(currency: string, k: nat)
    requires IsCurrency(currency) && k < |currency|
    ensures !IsDash(currency[k]) && !IsDigit(currency[k])
    ensures IsSymbol(currency[k]) ==> |currency| == 1
    ensures Fold(currency[k]) == 'u' && k + 1 < |currency| ==> Fold(currency[k + 1]) != 'p'
  {
  }

  /** The only dash of a text is the one between the amounts. */
  lemma OnlyDash(s: string, a: string, b: string, currency: string, k: nat)
    requires IsText(s, a, b, currency) && IsCurrency(currency) && k < |s| && IsDash(s[k])
    ensures k == |a| + 1
  {
    TextChars(s, a, b, currency);
    if k > |a| + 3 + |b| { CurrencyChars(currency, k - (|a| + 3 + |b|) - 1); }
  }

  /** Any match in a text takes both amounts to their ends, and so needs two digits of each. */
  lemma MatchNeedsTwoDigits(s: string, a: string, b: string, currency: string, i: nat)
    requires IsText(s, a, b, currency) && IsCurrency(currency) && i <= |s| && MatchAmounts(s, i).Some?
    ensures |a| >= 2 && |b| >= 2
  {
    var (mid, start, end) := MatchAmounts(s, i).value;
    var dash := BlankRun(s, mid);
    MatchSplits(s, i);
    OnlyDash(s, a, b, currency, dash);
    TextChars(s, a, b, currency);
    assert mid >= |a|;
    assert start == |a| + 3;
    assert end <= |a| + 3 + |b|;
  }

  lemma {:induction false} FindRangeNone(s: string, i: nat)
    requires i <= |s| && forall k :: i <= k <= |s| ==> MatchRange(s, k).None?
    ensures FindRange(s, i).None?
    decreases |s| - i
  {
    if i < |s| {
      FindRangeNone(s, i + 1);
    }
  }

  lemma {:induction false} FindShortNone(s: string, i: nat)
    requires i <= |s| && forall k :: i <= k < |s| && IsSymbol(s[k]) ==> k == |s| - 1
    ensures FindShort(s, i).None?
    decreases |s| - i
  {
    if i < |s| {
      FindShortNone(s, i + 1);
    }
  }

  lemma {:induction false} FindUpToNone(s: string, i: nat)
    requires i <= |s| && forall k :: i <= k < |s| - 1 && Fold(s[k]) == 'u' ==> Fold(s[k + 1]) != 'p'
    ensures FindUpTo(s, i).None?
    decreases |s| - i
  {
    if i + 2 <= |s| {
      var pair := s[i..i + 2];
      assert FoldAll(pair)[0] == Fold(s[i]) && FoldAll(pair)[1] == Fold(s[i + 1]);
    }
    if i < |s| {
      FindUpToNone(s, i + 1);
    }
  }

  /** The round trip is exact: a printed range with a one-digit amount is not recognised at all. */
  lemma SalaryNeedsTwoDigits(a: nat, b: nat, dash: char, currency: string)
    requires IsDash(dash) && IsCurrency(currency) && (a < 10 || b < 10)
    ensures ParseSalary(Text(a, b, dash, currency)) == Parsed(None, None, "")
  {
    var s := Text(a, b, dash, currency);
    PartsAreText(Thousands(a), Thousands(b), dash, currency);
    ThousandsLength(a);
    ThousandsLength(b);
    NothingFound(s, Thousands(a), Thousands(b), currency);
  }

  lemma NothingFound(s: string, a: string, b: string, currency: string)
    requires IsText(s, a, b, currency) && IsCurrency(currency) && (|a| < 2 || |b| < 2)
    ensures FindRange(s, 0).None? && FindShort(s, 0).None? && FindUpTo(s, 0).None?
  {
    forall k | 0 <= k <= |s|
      ensures MatchRange(s, k).None?
    {
      if MatchRange(s, k).Some? { MatchNeedsTwoDigits(s, a, b, currency, k); }
    }
    FindRangeNone(s, 0);
    TextChars(s, a, b, currency);
    var q := |a| + 3 + |b|;
    forall k | 0 <= k < |s|
      ensures IsSymbol(s[k]) ==> k == |s| - 1
      ensures Fold(s[k]) == 'u' && k < |s| - 1 ==> Fold(s[k + 1]) != 'p'
    {
      if k > q { CurrencyChars(currency, k - q - 1); }
    }
    FindShortNone(s, 0);
    FindUpToNone(s, 0);
  }
}
