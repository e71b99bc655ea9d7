/** internal/processor/normalizer.go, ParseSalary: the other two forms, and text in front of a range. */
module SalaryForms {
  import opened Prelude
  import opened Decimal
  import opened Strings
  import opened Salary

  // ---- Text in front ----

  lemma {:induction false} NumberRunShifts(pre: string, t: string, i: nat)
    requires i <= |t|
    ensures NumberRun(pre + t, |pre| + i) == |pre| + NumberRun(t, i)
    decreases |t| - i
  {
    if i < |t| {
      assert (pre + t)[|pre| + i] == t[i];
      NumberRunShifts(pre, t, i + 1);
    }
  }

  lemma {:induction false} BlankRunShifts(pre: string, t: string, i: nat)
    requires i <= |t|
    ensures BlankRun(pre + t, |pre| + i) == |pre| + BlankRun(t, i)
    decreases |t| - i
  {
    if i < |t| {
      assert (pre + t)[|pre| + i] == t[i];
      BlankRunShifts(pre, t, i + 1);
    }
  }

  lemma NumberShifts(pre: string, t: string, i: nat)
    requires i <= |t|
    ensures Number(pre + t, |pre| + i)
         == match Number(t, i) case None => None case Some(e) => Some(|pre| + e)
  {
    if i < |t| {
      assert (pre + t)[|pre| + i] == t[i];
      NumberRunShifts(pre, t, i + 1);
    }
  }

  lemma AtShifts(pre: string, t: string, i: nat, word: string)
    requires i <= |t|
    ensures At(pre + t, |pre| + i, word) <==> At(t, i, word)
  {
    if i + |word| <= |t| {
      assert (pre + t)[|pre| + i..|pre| + i + |word|] == t[i..i + |word|];
    }
  }

  lemma CurrencyShifts(pre: string, t: string, i: nat)
    requires i <= |t|
    ensures CurrencyAt(pre + t, |pre| + i) == CurrencyAt(t, i)
  {
    AtShifts(pre, t, i, EURO);
    AtShifts(pre, t, i, "EUR");
    AtShifts(pre, t, i, "CHF");
    AtShifts(pre, t, i, "GBP");
    AtShifts(pre, t, i, "USD");
  }

  /** What follows the first amount. */
  lemma SecondShifts(pre: string, t: string, d: nat)
    requires d < |t|
    ensures |pre| + BlankRun(t, d + 1) == BlankRun(pre + t, |pre| + (d + 1)) && (pre + t)[|pre| + d] == t[d]
    ensures Number(pre + t, |pre| + BlankRun(t, d + 1))
         == match Number(t, BlankRun(t, d + 1)) case None => None case Some(e) => Some(|pre| + e)
  {
    BlankRunShifts(pre, t, d + 1);
    NumberShifts(pre, t, BlankRun(t, d + 1));
  }

  function Shifted(m: Range, n: nat): Range {
    Range(m.from + n, m.mid + n, m.start + n, m.end + n, m.currency)
  }

  lemma RangeOfAmounts(s: string, i: nat, mid: nat, start: nat, end: nat)
    requires i <= |s| && MatchAmounts(s, i) == Some((mid, start, end))
    ensures MatchRange(s, i) == Some(Range(i, mid, start, end, CurrencyAt(s, BlankRun(s, end))))
  {
  }

  /** The matches at i in t and at n + i in s agree. */
  ghost predicate SameAmounts(s: string, n: nat, t: string, i: nat)
    requires i <= |t| && n + i <= |s|
  {
    MatchAmounts(s, n + i)
    == match MatchAmounts(t, i) case None => None case Some((mid, start, end)) => Some((n + mid, n + start, n + end))
  }

  ghost predicate SameRange(s: string, n: nat, t: string, i: nat)
    requires i <= |t| && n + i <= |s|
  {
    MatchRange(s, n + i) == match MatchRange(t, i) case None => None case Some(m) => Some(Shifted(m, n))
  }

  lemma SameAmountsSameRange(s: string, n: nat, t: string, i: nat)
    requires i <= |t| && n + i <= |s| && SameAmounts(s, n, t, i)
    requires MatchAmounts(t, i).Some? ==>
               var end := MatchAmounts(t, i).value.2;
               n + end <= |s| && CurrencyAt(s, BlankRun(s, n + end)) == CurrencyAt(t, BlankRun(t, end))
    ensures SameRange(s, n, t, i)
  {
    if MatchAmounts(t, i).Some? {
      var (mid, start, end) := MatchAmounts(t, i).value;
      RangeOfAmounts(t, i, mid, start, end);
      assert MatchAmounts(s, n + i) == Some((n + mid, n + start, n + end));
      RangeOfAmounts(s, n + i, n + mid, n + start, n + end);
    } else {
      assert MatchAmounts(s, n + i).None?;
    }
  }

  lemma AmountsShift(pre: string, t: string, i: nat)
    requires i <= |t|
    ensures SameAmounts(pre + t, |pre|, t, i)
  {
    NumberShifts(pre, t, i);
    if Number(t, i).Some? {
      var mid := Number(t, i).value;
      BlankRunShifts(pre, t, mid);
      if BlankRun(t, mid) < |t| {
        SecondShifts(pre, t, BlankRun(t, mid));
      }
    }
  }

  lemma RangeShifts(pre: string, t: string, i: nat)
    requires i <= |t|
    ensures SameRange(pre + t, |pre|, t, i)
  {
    AmountsShift(pre, t, i);
    if MatchAmounts(t, i).Some? {
      CurrencyAfterShifts(pre, t, MatchAmounts(t, i).value.2);
    }
    SameAmountsSameRange(pre + t, |pre|, t, i);
  }

  lemma CurrencyAfterShifts(pre: string, t: string, end: nat)
    requires end <= |t|
    ensures CurrencyAt(pre + t, BlankRun(pre + t, |pre| + end)) == CurrencyAt(t, BlankRun(t, end))
  {
    var s, e := pre + t, BlankRun(t, end);
    assert BlankRun(s, |pre| + end) == |pre| + e by { BlankRunShifts(pre, t, end); }
    assert CurrencyAt(s, |pre| + e) == CurrencyAt(t, e) by { CurrencyShifts(pre, t, e); }
  }

  lemma {:induction false} FindShifts(pre: string, t: string, i: nat)
    requires i <= |t|
    ensures FindRange(pre + t, |pre| + i)
         == match FindRange(t, i) case None => None case Some(m) => Some(Shifted(m, |pre|))
    decreases |t| - i
  {
    RangeShifts(pre, t, i);
    if MatchRange(t, i).None? && i < |t| {
      FindShifts(pre, t, i + 1);
    }
  }

  ghost predicate DigitFree(s: string) {
    forall k :: 0 <= k < |s| ==> !IsDigit(s[k])
  }

  lemma NoDigitNoRange(s: string, i: nat)
    requires i < |s| && !IsDigit(s[i])
    ensures MatchRange(s, i).None?
  {
  }

  /** The scan passes over text without digits. */
  lemma {:induction false} FindSkips(s: string, i: nat, j: nat)
    requires i <= j <= |s| && forall k :: i <= k < j ==> !IsDigit(s[k])
    ensures FindRange(s, i) == FindRange(s, j)
    decreases j - i
  {
    if i < j {
      NoDigitNoRange(s, i);
      FindSkips(s, i + 1, j);
    }
  }

  lemma {:induction false} NoDigitsNoShort(s: string, i: nat)
    requires DigitFree(s) && i <= |s|
    ensures FindShort(s, i).None?
    decreases |s| - i
  {
    if i < |s| {
      NoDigitsNoShort(s, i + 1);
    }
  }

  lemma {:induction false} NoDigitsNoUpTo(s: string, i: nat)
    requires DigitFree(s) && i <= |s|
    ensures FindUpTo(s, i).None?
    decreases |s| - i
  {
    if i < |s| {
      NoDigitsNoUpTo(s, i + 1);
    }
  }

  /** A text without digits, such as the empty one, has no salary and no currency. */
  lemma NoDigitsNoSalary(s: string)
    requires DigitFree(s)
    ensures ParseSalary(s) == Parsed(None, None, "")
  {
    FindSkips(s, 0, |s|);
    NoDigitsNoShort(s, 0);
    NoDigitsNoUpTo(s, 0);
  }

  lemma FoundRangeDecides(s: string, m: Range, a: string, b: string)
    requires s != "" && FindRange(s, 0) == Some(m) && s[m.from..m.mid] == a && s[m.start..m.end] == b
    ensures ParseSalary(s) == Parsed(Some(ParseAmount(a)), Some(ParseAmount(b)),
                                     if m.currency == "" then "EUR" else NormaliseCurrency(m.currency))
  {
  }

  lemma SameFindSameSalary(s: string, m: Range, t: string, n: Range)
    requires s != "" && t != "" && FindRange(s, 0) == Some(m) && FindRange(t, 0) == Some(n)
    requires s[m.from..m.mid] == t[n.from..n.mid] && s[m.start..m.end] == t[n.start..n.end] && m.currency == n.currency
    ensures ParseSalary(s) == ParseSalary(t)
  {
    FoundRangeDecides(s, m, s[m.from..m.mid], s[m.start..m.end]);
    FoundRangeDecides(t, n, t[n.from..n.mid], t[n.start..n.end]);
  }

  lemma PrefixFinds(pre: string, t: string, m: Range)
    requires DigitFree(pre) && FindRange(t, 0) == Some(m)
    ensures FindRange(pre + t, 0) == Some(Shifted(m, |pre|))
  {
    FindSkips(pre + t, 0, |pre|);
    FindShifts(pre, t, 0);
  }

  lemma SliceShifts(pre: string, t: string, i: nat, j: nat)
    requires i <= j <= |t|
    ensures (pre + t)[i + |pre|..j + |pre|] == t[i..j]
  {
  }

  /** The match behind a digit-free prefix, and its amounts. */
  lemma PrefixedMatch(pre: string, t: string, s: string, m: Range, n: Range)
    requires DigitFree(pre) && FindRange(t, 0) == Some(m) && s == pre + t && n == Shifted(m, |pre|)
    ensures FindRange(s, 0) == Some(n)
    ensures s[n.from..n.mid] == t[m.from..m.mid] && s[n.start..n.end] == t[m.start..m.end]
  {
    PrefixFinds(pre, t, m);
    SliceShifts(pre, t, m.from, m.mid);
    SliceShifts(pre, t, m.start, m.end);
  }

  /** Where a range is found, digit-free text in front of it changes nothing. */
  lemma PrefixIsIgnored(pre: string, t: string)
    requires DigitFree(pre) && FindRange(t, 0).Some?
    ensures ParseSalary(pre + t) == ParseSalary(t)
  {
    var s, m := pre + t, FindRange(t, 0).value;
    var n := Shifted(m, |pre|);
    PrefixedMatch(pre, t, s, m, n);
    SameFindSameSalary(s, n, t, m);
  }

  /** The salary round trip after any text without digits. */
  lemma PrefixedRoundTrip(pre: string, a: nat, b: nat, dash: char, currency: string)
    requires DigitFree(pre)
    requires 10 <= a && 10 <= b && IsDash(dash) && IsCurrency(currency)
    ensures ParseSalary(pre + Text(a, b, dash, currency))
         == Parsed(Some(Clamped(a)), Some(Clamped(b)), if currency == "" || currency == EURO then "EUR" else currency)
  {
    ThousandsLength(a);
    ThousandsLength(b);
    PartsAreText(Thousands(a), Thousands(b), dash, currency);
    PartsMatch(Text(a, b, dash, currency), Thousands(a), Thousands(b), currency);
    PrefixIsIgnored(pre, Text(a, b, dash, currency));
    SalaryRoundTrip(a, b, dash, currency);
  }

  // ---- "up to 90.000 €" ----

  lemma NoDashNoRange(s: string)
    requires forall k :: 0 <= k < |s| ==> !IsDash(s[k])
    ensures FindRange(s, 0).None? && FindShort(s, 0).None?
  {
    forall i | 0 <= i <= |s| ensures MatchRange(s, i).None? {
      if MatchAmounts(s, i).Some? { MatchSplits(s, i); }
    }
    FindRangeNone(s, 0);
    ShortNeedsDash(s, 0);
  }

  lemma {:induction false} ShortNeedsDash(s: string, i: nat)
    requires i <= |s| && forall k :: 0 <= k < |s| ==> !IsDash(s[k])
    ensures FindShort(s, i).None?
    decreases |s| - i
  {
    if i < |s| {
      ShortNeedsDash(s, i + 1);
    }
  }

  /** "up to a cur", the words in any case and each followed by one blank. */
  function UpToText(up: string, to: string, a: nat, currency: string): string {
    up + " " + to + " " + Thousands(a) + " " + currency
  }

  /** What the pattern makes of a currency: CHF is not among its three, and reads as EUR. */
  function UpToCurrency(currency: string): string {
    if currency == "USD" || currency == "GBP" then currency else "EUR"
  }

  ghost predicate IsUpTo(s: string, amount: string, currency: string) {
    var q := 6 + |amount|;
    && amount != "" && IsDigit(amount[0]) && NumberChars(amount, 0, |amount|)
    && |s| == q + 1 + |currency| && s[6..q] == amount && s[q + 1..] == currency && s[q] == ' '
    && FoldAll(s[0..2]) == "up" && s[2] == ' ' && FoldAll(s[3..5]) == "to" && s[5] == ' '
  }

  lemma UpToParts(up: string, to: string, amount: string, currency: string)
    requires FoldAll(up) == "up" && FoldAll(to) == "to"
    requires amount != "" && IsDigit(amount[0]) && NumberChars(amount, 0, |amount|)
    ensures IsUpTo(up + " " + to + " " + amount + " " + currency, amount, currency)
  {
    var s, q := up + " " + to + " " + amount + " " + currency, 6 + |amount|;
    assert |up| == |FoldAll(up)| == 2 && |to| == |FoldAll(to)| == 2;
    assert s[0..2] == up && s[3..5] == to && s[6..q] == amount && s[q + 1..] == currency;
  }

  lemma UpToChars(s: string, amount: string, currency: string)
    requires IsUpTo(s, amount, currency) && IsCurrency(currency)
    ensures NumberChars(s, 6, 6 + |amount|) && IsDigit(s[6])
    ensures forall k :: 0 <= k < |s| ==> !IsDash(s[k])
  {
    var q := 6 + |amount|;
    assert forall k :: 6 <= k < q ==> s[k] == s[6..q][k - 6];
    assert FoldAll(s[0..2])[0] == Fold(s[0]) && FoldAll(s[0..2])[1] == Fold(s[1]);
    assert FoldAll(s[3..5])[0] == Fold(s[3]) && FoldAll(s[3..5])[1] == Fold(s[4]);
    forall k | q < k < |s| ensures !IsDash(s[k]) {
      assert s[k] == s[q + 1..][k - q - 1];
      CurrencyChars(currency, k - q - 1);
    }
  }

  lemma FoldStarts(s: string, i: nat, word: string)
    requires word != "" && AtFold(s, i, word)
    ensures i < |s| && Fold(s[i]) == word[0]
  {
    assert FoldAll(s[i..i + |word|])[0] == Fold(s[i]);
  }

  lemma FoldStep(s: string, i: nat, word: string, more: seq<string>)
    ensures OneOfFold(s, i, [word] + more) == if AtFold(s, i, word) then s[i..i + |word|] else OneOfFold(s, i, more)
  {
    assert ([word] + more)[1..] == more;
  }

  /** The word for a currency of the pattern, folded. */
  function FoldedWord(currency: string): string {
    if currency == "EUR" then "eur" else if currency == "USD" then "usd" else if currency == "GBP" then "gbp" else EURO
  }

  lemma StandsFolded(s: string, i: nat, currency: string)
    requires i <= |s| && s[i..] == currency && IsCurrency(currency) && currency != "" && currency != "CHF"
    ensures AtFold(s, i, FoldedWord(currency)) && |FoldedWord(currency)| == |currency| && s[i..i + |currency|] == currency
  {
    assert s[i..i + |currency|] == currency;
    if |currency| == 3 {
      assert FoldAll(currency) == [Fold(currency[0]), Fold(currency[1]), Fold(currency[2])];
    } else {
      assert FoldAll(currency) == [Fold(currency[0])];
    }
  }

  lemma FoldsInOrder(s: string, i: nat)
    ensures OneOfFold(s, i, [EURO, "eur", "usd", "gbp"])
         == if AtFold(s, i, EURO) then s[i..i + 1] else if AtFold(s, i, "eur") then s[i..i + 3]
            else if AtFold(s, i, "usd") then s[i..i + 3] else if AtFold(s, i, "gbp") then s[i..i + 3] else ""
  {
    assert [EURO, "eur", "usd", "gbp"] == [EURO] + (["eur"] + (["usd"] + (["gbp"] + [])));
    FoldStep(s, i, EURO, ["eur"] + (["usd"] + (["gbp"] + [])));
    FoldStep(s, i, "eur", ["usd"] + (["gbp"] + []));
    FoldStep(s, i, "usd", ["gbp"] + []);
    FoldStep(s, i, "gbp", []);
  }

  lemma CurrencyFolds(s: string, i: nat, currency: string)
    requires i <= |s| && s[i..] == currency && IsCurrency(currency)
    ensures OneOfFold(s, i, [EURO, "eur", "usd", "gbp"]) == if currency == "CHF" then "" else currency
  {
    FoldsInOrder(s, i);
    if AtFold(s, i, EURO) { FoldStarts(s, i, EURO); }
    if AtFold(s, i, "eur") { FoldStarts(s, i, "eur"); }
    if AtFold(s, i, "usd") { FoldStarts(s, i, "usd"); }
    if AtFold(s, i, "gbp") { FoldStarts(s, i, "gbp"); }
    if currency != "" {
      assert s[i] == currency[0];
      if currency != "CHF" { StandsFolded(s, i, currency); }
    }
  }

  lemma UpToMatches(s: string, amount: string, currency: string)
    requires IsUpTo(s, amount, currency) && IsCurrency(currency) && |amount| >= 2
    ensures FindUpTo(s, 0) == Some((6, 6 + |amount|, if currency == "CHF" then "" else currency))
  {
    var q := 6 + |amount|;
    UpToChars(s, amount, currency);
    assert FoldAll(s[3..5])[0] == Fold(s[3]);
    BlankRunEnds(s, 2, 3);
    BlankRunEnds(s, 5, 6);
    NumberIs(s, 6, q);
    if currency != "" {
      assert s[q + 1] == s[q + 1..][0];
      CurrencyChars(currency, 0);
    }
    BlankRunEnds(s, q, q + 1);
    CurrencyFolds(s, q + 1, currency);
  }

  /** "up to" round trip: the amount comes back as a maximum alone, in EUR, USD or GBP. */
  lemma UpToRoundTrip(up: string, to: string, a: nat, currency: string)
    requires FoldAll(up) == "up" && FoldAll(to) == "to" && 10 <= a && IsCurrency(currency)
    ensures ParseSalary(UpToText(up, to, a, currency)) == Parsed(None, Some(Clamped(a)), UpToCurrency(currency))
  {
    ThousandsLength(a);
    UpToParts(up, to, Thousands(a), currency);
    UpToParses(UpToText(up, to, a, currency), Thousands(a), currency);
    AmountOfThousands(a);
  }

  lemma UpToParses(s: string, amount: string, currency: string)
    requires IsUpTo(s, amount, currency) && IsCurrency(currency) && |amount| >= 2
    ensures ParseSalary(s) == Parsed(None, Some(ParseAmount(amount)), UpToCurrency(currency))
  {
    UpToChars(s, amount, currency);
    NoDashNoRange(s);
    UpToMatches(s, amount, currency);
    UpToDecides(s, amount, if currency == "CHF" then "" else currency);
    if currency != "" { CurrencyIsNormal(currency); }
  }

  lemma UpToDecides(s: string, amount: string, currency: string)
    requires s != "" && FindRange(s, 0).None? && FindShort(s, 0).None? && 6 + |amount| <= |s|
    requires FindUpTo(s, 0) == Some((6, 6 + |amount|, currency)) && s[6..6 + |amount|] == amount
    ensures ParseSalary(s)
         == Parsed(None, Some(ParseAmount(amount)), if currency == "" then "EUR" else NormaliseCurrency(currency))
  {
  }

  // ---- "€60k - €80k" ----

  lemma {:induction false} DigitRunEnds(s: string, i: nat, e: nat)
    requires i <= e <= |s| && (forall k :: i <= k < e ==> IsDigit(s[k])) && (e < |s| ==> !IsDigit(s[e]))
    ensures DigitRun(s, i) == e
    decreases e - i
  {
    if i < e {
      DigitRunEnds(s, i + 1, e);
    }
  }

  function Mark(present: bool, c: char): string {
    if present then [c] else ""
  }

  /** A symbol, an amount, perhaps a k, a dash between blanks, perhaps a symbol, an amount, perhaps a k. */
  function ShortOf(c: char, a: string, k1: bool, dash: char, sym: bool, b: string, k2: bool): string {
    [c] + a + Mark(k1, 'k') + [' ', dash, ' '] + Mark(sym, c) + b + Mark(k2, 'k')
  }

  /** Where its pieces are: the first amount ends at p, the dash is at d, the second amount is from f to g. */
  ghost predicate IsShort(s: string, c: char, a: string, k1: bool, sym: bool, b: string, p: nat, d: nat, f: nat, g: nat) {
    && IsSymbol(c) && a != "" && b != "" && AllDigits(a) && AllDigits(b)
    && p == 1 + |a| && d == p + (if k1 then 1 else 0) + 1 && f == d + 2 + (if sym then 1 else 0) && g == f + |b|
    && g <= |s| <= g + 1 && (g < |s| ==> s[g] == 'k')
    && s[0] == c && s[1..p] == a && s[f..g] == b
    && (k1 ==> s[p] == 'k') && s[d - 1] == ' ' && IsDash(s[d]) && s[d + 1] == ' ' && (sym ==> s[d + 2] == c)
  }

  lemma ShortParts(c: char, a: string, k1: bool, dash: char, sym: bool, b: string, k2: bool)
    requires IsSymbol(c) && IsDash(dash) && a != "" && b != "" && AllDigits(a) && AllDigits(b)
    ensures var p := 1 + |a|;
            var d := p + (if k1 then 1 else 0) + 1;
            var f := d + 2 + (if sym then 1 else 0);
            IsShort(ShortOf(c, a, k1, dash, sym, b, k2), c, a, k1, sym, b, p, d, f, f + |b|)
  {
    var s := ShortOf(c, a, k1, dash, sym, b, k2);
    var left, right := [c] + a + Mark(k1, 'k') + [' ', dash, ' '] + Mark(sym, c), Mark(k2, 'k');
    assert s == left + b + right;
    assert s[|left|..|left| + |b|] == b;
    assert s == [c] + a + (Mark(k1, 'k') + [' ', dash, ' '] + Mark(sym, c) + b + right);
    assert s[1..1 + |a|] == a;
  }

  lemma ShortChars(s: string, c: char, a: string, k1: bool, sym: bool, b: string, p: nat, d: nat, f: nat, g: nat)
    requires IsShort(s, c, a, k1, sym, b, p, d, f, g)
    ensures forall k :: 1 <= k < p ==> IsDigit(s[k])
    ensures forall k :: f <= k < g ==> IsDigit(s[k])
    ensures forall k :: 0 <= k < |s| && k != d ==> !IsDash(s[k])
  {
    assert forall k :: 1 <= k < p ==> s[k] == s[1..p][k - 1];
    assert forall k :: f <= k < g ==> s[k] == s[f..g][k - f];
  }

  /** Where the pieces end that the scanner takes one after another. */
  lemma ShortStops(s: string, c: char, a: string, k1: bool, sym: bool, b: string, p: nat, d: nat, f: nat, g: nat)
    requires IsShort(s, c, a, k1, sym, b, p, d, f, g)
    ensures BlankRun(s, 1) == 1 && DigitRun(s, 1) == p && p > 1
    ensures s[p] == 'k' <==> k1
    ensures BlankRun(s, if k1 then p + 1 else p) == d && IsDash(s[d]) && BlankRun(s, d + 1) == d + 2
    ensures if sym then IsSymbol(s[d + 2]) && BlankRun(s, d + 3) == f else !IsSymbol(s[d + 2]) && d + 2 == f
    ensures DigitRun(s, f) == g && f < g
  {
    ShortChars(s, c, a, k1, sym, b, p, d, f, g);
    assert IsDigit(s[1]) && IsDigit(s[f]);
    BlankRunEnds(s, 1, 1);
    DigitRunEnds(s, 1, p);
    BlankRunEnds(s, d - 1, d);
    BlankRunEnds(s, d + 1, d + 2);
    if sym { BlankRunEnds(s, d + 3, d + 3); }
    DigitRunEnds(s, f, g);
  }

  /** The pattern matches with each amount whole. */
  lemma ShortMatches(s: string, c: char, a: string, k1: bool, sym: bool, b: string, p: nat, d: nat, f: nat, g: nat)
    requires IsShort(s, c, a, k1, sym, b, p, d, f, g)
    ensures MatchShort(s, 0) == Some((1, p, f, g))
  {
    ShortStops(s, c, a, k1, sym, b, p, d, f, g);
  }

  /** The first pattern, which is tried before, matches such a text only when nothing but blanks and the
      dash is between two amounts of at least two digits. */
  lemma ShortAsRange(s: string, c: char, a: string, k1: bool, sym: bool, b: string, p: nat, d: nat, f: nat, g: nat, i: nat)
    requires IsShort(s, c, a, k1, sym, b, p, d, f, g) && i <= |s| && MatchAmounts(s, i).Some?
    ensures !k1 && !sym && |a| >= 2 && |b| >= 2
  {
    ShortChars(s, c, a, k1, sym, b, p, d, f, g);
    MatchSplits(s, i);
    var (mid, start, end) := MatchAmounts(s, i).value;
    var dash := BlankRun(s, mid);
    assert dash == d;
    assert InNumber(s[mid - 1]);
    assert mid == d - 1;
    assert if sym then s[d + 2] == c else IsDigit(s[d + 2]);
    assert !IsBlank(s[d + 2]) && start == d + 2;
    assert end <= g;
  }

  ghost predicate ReadsAsRange(a: string, k1: bool, sym: bool, b: string) {
    !k1 && !sym && |a| >= 2 && |b| >= 2
  }

  lemma ShortIsNoRange(s: string, c: char, a: string, k1: bool, sym: bool, b: string, p: nat, d: nat, f: nat, g: nat)
    requires IsShort(s, c, a, k1, sym, b, p, d, f, g) && !ReadsAsRange(a, k1, sym, b)
    ensures FindRange(s, 0).None?
  {
    forall i | 0 <= i <= |s| ensures MatchRange(s, i).None? {
      if MatchAmounts(s, i).Some? { ShortAsRange(s, c, a, k1, sym, b, p, d, f, g, i); }
    }
    FindRangeNone(s, 0);
  }

  lemma ShortIsRange(s: string, c: char, a: string, k1: bool, sym: bool, b: string, p: nat, d: nat, f: nat, g: nat)
    requires IsShort(s, c, a, k1, sym, b, p, d, f, g) && ReadsAsRange(a, k1, sym, b)
    ensures FindRange(s, 0) == Some(Range(1, p, f, g, ""))
  {
    ShortChars(s, c, a, k1, sym, b, p, d, f, g);
    LongestSplitIsTheMatch(s, 1, p, d, f, g);
    BlankRunEnds(s, g, g);
    NoCurrencyAfter(s, g);
    RangeOfAmounts(s, 1, p, f, g);
    assert MatchRange(s, 0).None?;
    assert FindRange(s, 0) == FindRange(s, 1);
  }

  lemma NoCurrencyAfter(s: string, g: nat)
    requires g <= |s| && (g < |s| ==> s[g] == 'k')
    ensures CurrencyAt(s, g) == ""
  {
    if At(s, g, EURO) { AtStarts(s, g, EURO); }
    if At(s, g, "EUR") { AtStarts(s, g, "EUR"); }
    if At(s, g, "CHF") { AtStarts(s, g, "CHF"); }
    if At(s, g, "GBP") { AtStarts(s, g, "GBP"); }
    if At(s, g, "USD") { AtStarts(s, g, "USD"); }
  }

  lemma ShortDecides(s: string, a: string, b: string, p: nat, f: nat, g: nat)
    requires s != "" && FindRange(s, 0).None? && MatchShort(s, 0) == Some((1, p, f, g))
    requires 1 <= p <= |s| && f <= g <= |s| && s[1..p] == a && s[f..g] == b
    ensures ParseSalary(s)
         == Parsed(Some(Wrap64(ParseAmount(a) * 1000)), Some(Wrap64(ParseAmount(b) * 1000)), NormaliseCurrency([s[0]]))
  {
    assert FindShort(s, 0) == Some((0, (1, p, f, g)));
  }

  lemma AmountOfDigits(n: nat)
    ensures ParseAmount(PrintNat(n)) == Clamped(n)
  {
    DropDigits(PrintNat(n));
    ParsePrintNat(n);
  }

  lemma ShortParses(s: string, c: char, a: string, k1: bool, sym: bool, b: string, p: nat, d: nat, f: nat, g: nat)
    requires IsShort(s, c, a, k1, sym, b, p, d, f, g)
    ensures ParseSalary(s)
         == if ReadsAsRange(a, k1, sym, b) then Parsed(Some(ParseAmount(a)), Some(ParseAmount(b)), "EUR")
            else Parsed(Some(Wrap64(ParseAmount(a) * 1000)), Some(Wrap64(ParseAmount(b) * 1000)), NormaliseCurrency([c]))
  {
    if ReadsAsRange(a, k1, sym, b) {
      ShortIsRange(s, c, a, k1, sym, b, p, d, f, g);
      FoundRangeDecides(s, Range(1, p, f, g, ""), a, b);
    } else {
      ShortIsNoRange(s, c, a, k1, sym, b, p, d, f, g);
      ShortMatches(s, c, a, k1, sym, b, p, d, f, g);
      ShortDecides(s, a, b, p, f, g);
    }
  }

  /** Exactly when amounts in thousands come back: unless the text has neither a k after its first amount
      nor a second symbol and both amounts have two digits or more. Such a text, "€60 - 80k", is taken for
      a plain range in EUR, whatever its symbol. A thousandfold that does not fit an int wraps round. */
  lemma ShortRoundTripIsExact(c: char, a: nat, k1: bool, dash: char, sym: bool, b: nat, k2: bool)
    requires IsSymbol(c) && IsDash(dash)
    ensures var r := ParseSalary(ShortOf(c, PrintNat(a), k1, dash, sym, PrintNat(b), k2));
            && (k1 || sym || a < 10 || b < 10 ==>
                  r == Parsed(Some(Wrap64(Clamped(a) * 1000)), Some(Wrap64(Clamped(b) * 1000)),
                              if c == '$' then "USD" else if c == '\U{A3}' then "GBP" else "EUR"))
            && (!(k1 || sym || a < 10 || b < 10) ==> r == Parsed(Some(Clamped(a)), Some(Clamped(b)), "EUR"))
  {
    var p := 1 + |PrintNat(a)|;
    var d := p + (if k1 then 1 else 0) + 1;
    var f := d + 2 + (if sym then 1 else 0);
    ShortParts(c, PrintNat(a), k1, dash, sym, PrintNat(b), k2);
    var text := ShortOf(c, PrintNat(a), k1, dash, sym, PrintNat(b), k2);
    ShortParses(text, c, PrintNat(a), k1, sym, PrintNat(b), p, d, f, f + |PrintNat(b)|);
    AmountOfDigits(a);
    AmountOfDigits(b);
    PrintNatTwoDigits(a);
    PrintNatTwoDigits(b);
    SymbolCurrency(c);
  }

  lemma SymbolCurrency(c: char)
    requires IsSymbol(c)
    ensures NormaliseCurrency([c]) == if c == '$' then "USD" else if c == '\U{A3}' then "GBP" else "EUR"
  {
  }

  lemma PrintNatTwoDigits(n: nat)
    ensures |PrintNat(n)| >= 2 <==> n >= 10
  {
  }
}
