/** What the JSON printer makes of Go strings that are not valid UTF-8. */
module InvalidText {
  import opened Prelude
  import opened Json
  import Decimal

  type Byte = b: nat | b < 256

  /** A Go string is made of characters, and of bytes that belong to none. */
  datatype Unit = Rune(c: char) | BadByte(b: Byte)

  type Text = seq<Unit>

  /** A bad byte is printed as an escaped replacement character. */
  function EscapeUnit(u: Unit): (s: string)
    ensures s != "" && s[0] != '\"'
  {
    match u case Rune(c) => EscapeChar(c) case BadByte(_) => "\\ufffd"
  }

  function EscapeUnits(s: Text): string {
    if s == [] then "" else EscapeUnit(s[0]) + EscapeUnits(s[1..])
  }

  function QuoteText(s: Text): string {
    "\"" + EscapeUnits(s) + "\""
  }

  /** The string as a reader of JSON sees it. */
  function Replaced(s: Text): string {
    seq(|s|, i requires 0 <= i < |s| => match s[i] case Rune(c) => c case BadByte(_) => '\U{FFFD}')
  }

  lemma ReadUnit(u: Unit, rest: string)
    ensures ReadChar(EscapeUnit(u) + rest) == Some((if u.Rune? then u.c else '\U{FFFD}', rest))
  {
    match u
    case Rune(c) => ReadCharEscape(c, rest);
    case BadByte(_) =>
      var s := "\\ufffd" + rest;
      assert s[2..] == "fffd" + rest && s[6..] == rest;
      assert Hex4(0xfffd) == "fffd";
      ReadHex4Hex4(0xfffd, rest);
  }

  lemma EscapeSplits(s: Text, rest: string)
    requires s != []
    ensures EscapeUnits(s) + "\"" + rest == EscapeUnit(s[0]) + (EscapeUnits(s[1..]) + "\"" + rest)
  {
  }

  /** Every bad byte reads back as the replacement character. */
  lemma {:induction false} ReadCharsUnits(s: Text, rest: string)
    ensures ReadChars(EscapeUnits(s) + "\"" + rest) == Some((Replaced(s), rest))
    decreases |s|
  {
    if s == [] {
      assert (EscapeUnits(s) + "\"" + rest)[1..] == rest;
    } else {
      EscapeSplits(s, rest);
      ReadUnit(s[0], EscapeUnits(s[1..]) + "\"" + rest);
      ReadCharsUnits(s[1..], rest);
      assert Replaced(s) == [Replaced(s)[0]] + Replaced(s[1..]);
    }
  }

  // ---- Exactly which texts have one encoding ----

  predicate AlikeUnits(u: Unit, v: Unit) {
    u == v || (u.BadByte? && v.BadByte?)
  }

  /** The texts differ only in which bad bytes they hold. */
  ghost predicate Alike(s: Text, t: Text) {
    |s| == |t| && forall i :: 0 <= i < |s| ==> AlikeUnits(s[i], t[i])
  }

  lemma PrefixCancels(p: string, a: string, b: string)
    requires p + a == p + b
    ensures a == b
  {
    assert (p + a)[|p|..] == a && (p + b)[|p|..] == b;
  }

  /** The first unit of a text can be told from its encoding, up to which bad byte it is; the character
      U+FFFD is printed as itself and a bad byte as an escape. */
  lemma FirstUnit(u: Unit, a: string, v: Unit, b: string)
    requires EscapeUnit(u) + a == EscapeUnit(v) + b
    ensures AlikeUnits(u, v) && a == b
  {
    ReadUnit(u, a);
    ReadUnit(v, b);
    assert (EscapeUnit(u) + a)[0] == EscapeUnit(u)[0] && (EscapeUnit(v) + b)[0] == EscapeUnit(v)[0];
  }

  lemma {:induction false} QuotedApart(s: Text, a: string, t: Text, b: string)
    requires EscapeUnits(s) + "\"" + a == EscapeUnits(t) + "\"" + b
    ensures Alike(s, t) && a == b
    decreases |s|
  {
    var text := EscapeUnits(s) + "\"" + a;
    if s != [] { EscapeSplits(s, a); }
    if t != [] { EscapeSplits(t, b); }
    if s == [] || t == [] {
      assert text[0] == '\"' <==> s == [];
      assert text[0] == '\"' <==> t == [];
      assert EscapeUnits([]) + "\"" + a == "\"" + a && EscapeUnits([]) + "\"" + b == "\"" + b;
      PrefixCancels("\"", a, b);
    } else {
      var tailA, tailB := EscapeUnits(s[1..]) + "\"" + a, EscapeUnits(t[1..]) + "\"" + b;
      FirstUnit(s[0], tailA, t[0], tailB);
      QuotedApart(s[1..], a, t[1..], b);
      assert forall i :: 0 < i < |s| ==> s[i] == s[1..][i - 1] && t[i] == t[1..][i - 1];
    }
  }

  lemma {:induction false} AlikeCollide(s: Text, t: Text)
    requires Alike(s, t)
    ensures EscapeUnits(s) == EscapeUnits(t)
  {
    if s != [] {
      assert AlikeUnits(s[0], t[0]);
      AlikeCollide(s[1..], t[1..]);
    }
  }

  /** Two texts have one encoding if and only if they differ only in which bad bytes they hold. */
  lemma TextsCollideExactly(s: Text, t: Text)
    ensures EscapeUnits(s) == EscapeUnits(t) <==> Alike(s, t)
  {
    if EscapeUnits(s) == EscapeUnits(t) {
      QuotedApart(s, "", t, "");
    }
    if Alike(s, t) {
      AlikeCollide(s, t);
    }
  }

  ghost predicate Valid(s: Text) {
    forall i :: 0 <= i < |s| ==> s[i].Rune?
  }

  /** Another bad byte: these two never occur in UTF-8, so they stay bad wherever they stand. */
  function OtherUnit(u: Unit): Unit {
    match u case Rune(c) => u case BadByte(b) => BadByte(if b == 0xFF then 0xFE else 0xFF)
  }

  /** The text with every bad byte exchanged for another. */
  function Exchanged(s: Text): (t: Text)
    ensures |t| == |s|
  {
    seq(|s|, i requires 0 <= i < |s| => OtherUnit(s[i]))
  }

  lemma ExchangedIsAlike(s: Text)
    ensures Alike(s, Exchanged(s)) && (Exchanged(s) == s <==> Valid(s))
  {
    assert forall i :: 0 <= i < |s| ==> Exchanged(s)[i] == OtherUnit(s[i]);
    if Valid(s) {
      assert Exchanged(s) == s;
    }
  }

  lemma ValidAlikeIsSame(s: Text, t: Text)
    requires Valid(s) && Alike(t, s)
    ensures t == s
  {
    assert forall i :: 0 <= i < |s| ==> AlikeUnits(t[i], s[i]);
  }

  /** A text shares its encoding with no other text if and only if it is valid. */
  lemma ValidTextsStandAlone(s: Text)
    ensures (forall t :: EscapeUnits(t) == EscapeUnits(s) ==> t == s) <==> Valid(s)
  {
    ExchangedIsAlike(s);
    AlikeCollide(s, Exchanged(s));
    if Valid(s) {
      forall t | EscapeUnits(t) == EscapeUnits(s) ensures t == s {
        TextsCollideExactly(t, s);
        ValidAlikeIsSame(s, t);
      }
    }
  }

  // ---- Valid texts are printed as strings ----

  function Runes(s: string): (t: Text)
    ensures |t| == |s| && Valid(t)
  {
    seq(|s|, i requires 0 <= i < |s| => Rune(s[i]))
  }

  lemma {:induction false} RunesPrintAlike(s: string)
    ensures EscapeUnits(Runes(s)) == Escape(s)
  {
    if s != "" {
      RunesPrintAlike(s[1..]);
      assert Runes(s)[1..] == Runes(s[1..]);
    }
  }

  // ---- Lists and members ----

  type TextSlice = Option<seq<Text>>

  datatype TextValue = TextStr(s: Text) | TextNum(n: int) | TextList(items: TextSlice)

  function PrintTexts(items: seq<Text>, first: bool): string {
    if items == [] then "]" else (if first then "" else ",") + QuoteText(items[0]) + PrintTexts(items[1..], false)
  }

  function PrintTextValue(v: TextValue): string {
    match v
    case TextStr(s) => QuoteText(s)
    case TextNum(n) => Decimal.Print(n)
    case TextList(items) => if items.None? then "null" else "[" + PrintTexts(items.value, true)
  }

  ghost predicate AlikeTexts(xs: seq<Text>, ys: seq<Text>) {
    |xs| == |ys| && forall i :: 0 <= i < |xs| ==> Alike(xs[i], ys[i])
  }

  ghost predicate AlikeValues(v: TextValue, w: TextValue) {
    match v
    case TextStr(s) => w.TextStr? && Alike(s, w.s)
    case TextNum(n) => v == w
    case TextList(items) =>
      w.TextList? && (items.None? <==> w.items.None?) && (items.Some? ==> w.items.Some? && AlikeTexts(items.value, w.items.value))
  }

  predicate SameKind(v: TextValue, w: TextValue) {
    (v.TextStr? <==> w.TextStr?) && (v.TextNum? <==> w.TextNum?)
  }

  lemma QuoteTextsApart(s: Text, a: string, t: Text, b: string)
    requires QuoteText(s) + a == QuoteText(t) + b
    ensures Alike(s, t) && a == b
  {
    assert QuoteText(s) + a == "\"" + (EscapeUnits(s) + "\"" + a);
    assert QuoteText(t) + b == "\"" + (EscapeUnits(t) + "\"" + b);
    PrefixCancels("\"", EscapeUnits(s) + "\"" + a, EscapeUnits(t) + "\"" + b);
    QuotedApart(s, a, t, b);
  }

  lemma Regroup(lead: string, item: string, more: string, a: string)
    ensures lead + item + more + a == lead + (item + (more + a))
  {
  }

  lemma TextsSplit(items: seq<Text>, first: bool, a: string)
    requires items != []
    ensures var lead := if first then "" else ",";
            PrintTexts(items, first) + a == lead + (QuoteText(items[0]) + (PrintTexts(items[1..], false) + a))
    ensures (PrintTexts(items, first) + a)[0] != ']'
  {
    var lead := if first then "" else ",";
    Regroup(lead, QuoteText(items[0]), PrintTexts(items[1..], false), a);
    assert (lead + QuoteText(items[0]))[0] == if first then '\"' else ',';
  }

  lemma {:induction false} TextsApart(xs: seq<Text>, a: string, ys: seq<Text>, b: string, first: bool)
    requires PrintTexts(xs, first) + a == PrintTexts(ys, first) + b
    ensures AlikeTexts(xs, ys) && a == b
    decreases |xs|
  {
    if xs != [] { TextsSplit(xs, first, a); }
    if ys != [] { TextsSplit(ys, first, b); }
    if xs == [] || ys == [] {
      assert (PrintTexts(xs, first) + a)[0] == ']' <==> xs == [];
      assert (PrintTexts(ys, first) + b)[0] == ']' <==> ys == [];
      PrefixCancels("]", a, b);
    } else {
      var moreA, moreB := PrintTexts(xs[1..], false) + a, PrintTexts(ys[1..], false) + b;
      PrefixCancels(if first then "" else ",", QuoteText(xs[0]) + moreA, QuoteText(ys[0]) + moreB);
      QuoteTextsApart(xs[0], moreA, ys[0], moreB);
      TextsApart(xs[1..], a, ys[1..], b, false);
      assert forall i :: 0 < i < |xs| ==> xs[i] == xs[1..][i - 1] && ys[i] == ys[1..][i - 1];
    }
  }

  lemma {:induction false} AlikeTextsCollide(xs: seq<Text>, ys: seq<Text>, first: bool)
    requires AlikeTexts(xs, ys)
    ensures PrintTexts(xs, first) == PrintTexts(ys, first)
    decreases |xs|
  {
    if xs != [] {
      assert Alike(xs[0], ys[0]);
      AlikeCollide(xs[0], ys[0]);
      AlikeTextsCollide(xs[1..], ys[1..], false);
    }
  }

  lemma SliceLead(x: TextSlice, a: string)
    ensures var s := PrintTextValue(TextList(x)) + a;
            if x.None? then s[0] == 'n' && s == "null" + a else s[0] == '[' && s == "[" + (PrintTexts(x.value, true) + a)
  {
  }

  lemma SlicesApart(x: TextSlice, a: string, y: TextSlice, b: string)
    requires PrintTextValue(TextList(x)) + a == PrintTextValue(TextList(y)) + b
    ensures AlikeValues(TextList(x), TextList(y)) && a == b
  {
    SliceLead(x, a);
    SliceLead(y, b);
    if x.None? {
      PrefixCancels("null", a, b);
    } else {
      PrefixCancels("[", PrintTexts(x.value, true) + a, PrintTexts(y.value, true) + b);
      TextsApart(x.value, a, y.value, b, true);
    }
  }

  /** A value can be told from its encoding and what follows, up to bad bytes. */
  lemma ValuesApart(v: TextValue, a: string, w: TextValue, b: string)
    requires SameKind(v, w) && !StartsWithDigit(a) && !StartsWithDigit(b)
    requires PrintTextValue(v) + a == PrintTextValue(w) + b
    ensures AlikeValues(v, w) && a == b
  {
    match v
    case TextStr(s) => QuoteTextsApart(s, a, w.s, b);
    case TextNum(n) =>
      ReadIntPrint(n, a);
      ReadIntPrint(w.n, b);
    case TextList(items) => SlicesApart(items, a, w.items, b);
  }

  lemma AlikeValuesCollide(v: TextValue, w: TextValue)
    requires AlikeValues(v, w)
    ensures PrintTextValue(v) == PrintTextValue(w)
  {
    match v
    case TextStr(s) => AlikeCollide(s, w.s);
    case TextNum(n) =>
    case TextList(items) => if items.Some? { AlikeTextsCollide(items.value, w.items.value, true); }
  }

  function PrintTextMembers(names: seq<string>, values: seq<TextValue>, lead: char): string
    requires |names| == |values|
  {
    if names == [] then "}"
    else [lead] + Quote(names[0]) + ":" + PrintTextValue(values[0]) + PrintTextMembers(names[1..], values[1..], ',')
  }

  ghost predicate AllAlike(xs: seq<TextValue>, ys: seq<TextValue>) {
    |xs| == |ys| && forall i :: 0 <= i < |xs| ==> AlikeValues(xs[i], ys[i])
  }

  ghost predicate AllSameKind(xs: seq<TextValue>, ys: seq<TextValue>) {
    |xs| == |ys| && forall i :: 0 <= i < |xs| ==> SameKind(xs[i], ys[i])
  }

  lemma MembersLead(names: seq<string>, values: seq<TextValue>)
    requires |names| == |values|
    ensures !StartsWithDigit(PrintTextMembers(names, values, ','))
  {
  }

  lemma MemberRegroups(lead: char, name: string, value: string, more: string)
    ensures [lead] + name + ":" + value + more == ([lead] + name + ":") + (value + more)
  {
  }

  lemma {:induction false} MembersApart(names: seq<string>, xs: seq<TextValue>, ys: seq<TextValue>, lead: char)
    requires |names| == |xs| && AllSameKind(xs, ys)
    requires PrintTextMembers(names, xs, lead) == PrintTextMembers(names, ys, lead)
    ensures AllAlike(xs, ys)
    decreases |names|
  {
    if names != [] {
      var moreX, moreY := PrintTextMembers(names[1..], xs[1..], ','), PrintTextMembers(names[1..], ys[1..], ',');
      MemberRegroups(lead, Quote(names[0]), PrintTextValue(xs[0]), moreX);
      MemberRegroups(lead, Quote(names[0]), PrintTextValue(ys[0]), moreY);
      PrefixCancels([lead] + Quote(names[0]) + ":", PrintTextValue(xs[0]) + moreX, PrintTextValue(ys[0]) + moreY);
      MembersLead(names[1..], xs[1..]);
      MembersLead(names[1..], ys[1..]);
      ValuesApart(xs[0], moreX, ys[0], moreY);
      assert AllSameKind(xs[1..], ys[1..]);
      MembersApart(names[1..], xs[1..], ys[1..], ',');
      assert forall i :: 0 < i < |xs| ==> xs[i] == xs[1..][i - 1] && ys[i] == ys[1..][i - 1];
    }
  }

  lemma {:induction false} AllAlikeCollide(names: seq<string>, xs: seq<TextValue>, ys: seq<TextValue>, lead: char)
    requires |names| == |xs| && AllAlike(xs, ys)
    ensures PrintTextMembers(names, xs, lead) == PrintTextMembers(names, ys, lead)
    decreases |names|
  {
    if names != [] {
      assert AlikeValues(xs[0], ys[0]);
      AlikeValuesCollide(xs[0], ys[0]);
      assert AllAlike(xs[1..], ys[1..]);
      AllAlikeCollide(names[1..], xs[1..], ys[1..], ',');
    }
  }
}

/** The search filter as a request gives it, with texts that need not be valid UTF-8. */
module RawFilters {
  import opened Prelude
  import opened Filters
  import opened Json
  import opened InvalidText
  import SearchKey

  datatype RawFilter = RawFilter(
    query: Text, location: Text, remote: Text, tags: TextSlice, salaryMin: int, sources: TextSlice,
    page: int, perPage: int, sort: Text)

  function RawValues(f: RawFilter): (values: seq<TextValue>)
    ensures |values| == |SearchKey.NAMES|
  {
    [TextStr(f.query), TextStr(f.location), TextStr(f.remote), TextList(f.tags), TextNum(f.salaryMin), TextList(f.sources),
     TextNum(f.page), TextNum(f.perPage), TextStr(f.sort)]
  }

  /** json.Marshal(filter) */
  function EncodeRaw(f: RawFilter): string {
    PrintTextMembers(SearchKey.NAMES, RawValues(f), '{')
  }

  ghost predicate AlikeSlices(x: TextSlice, y: TextSlice) {
    (x.None? <==> y.None?) && (x.Some? && y.Some? ==> AlikeTexts(x.value, y.value))
  }

  /** The filters differ only in which bad bytes their texts hold. */
  ghost predicate AlikeFilters(f: RawFilter, g: RawFilter) {
    && Alike(f.query, g.query) && Alike(f.location, g.location) && Alike(f.remote, g.remote) && Alike(f.sort, g.sort)
    && AlikeSlices(f.tags, g.tags) && AlikeSlices(f.sources, g.sources)
    && f.salaryMin == g.salaryMin && f.page == g.page && f.perPage == g.perPage
  }

  lemma AlikeFiltersAreAlikeValues(f: RawFilter, g: RawFilter)
    ensures AlikeFilters(f, g) <==> AllAlike(RawValues(f), RawValues(g))
  {
    var x, y := RawValues(f), RawValues(g);
    if AllAlike(x, y) {
      assert AlikeValues(x[0], y[0]) && AlikeValues(x[1], y[1]) && AlikeValues(x[2], y[2]) && AlikeValues(x[3], y[3]);
      assert AlikeValues(x[4], y[4]) && AlikeValues(x[5], y[5]) && AlikeValues(x[6], y[6]) && AlikeValues(x[7], y[7]);
      assert AlikeValues(x[8], y[8]);
    }
  }

  lemma KindsAgree(f: RawFilter, g: RawFilter)
    ensures AllSameKind(RawValues(f), RawValues(g))
  {
  }

  /** Two filters have one encoding, and so one cache key, if and only if they differ only in which bad
      bytes their texts hold. */
  lemma FiltersCollideExactly(f: RawFilter, g: RawFilter)
    ensures EncodeRaw(f) == EncodeRaw(g) <==> AlikeFilters(f, g)
  {
    AlikeFiltersAreAlikeValues(f, g);
    if EncodeRaw(f) == EncodeRaw(g) {
      KindsAgree(f, g);
      MembersApart(SearchKey.NAMES, RawValues(f), RawValues(g), '{');
    }
    if AlikeFilters(f, g) {
      AllAlikeCollide(SearchKey.NAMES, RawValues(f), RawValues(g), '{');
    }
  }

  ghost predicate ValidSlice(x: TextSlice) {
    x.Some? ==> forall i :: 0 <= i < |x.value| ==> Valid(x.value[i])
  }

  ghost predicate ValidFilter(f: RawFilter) {
    Valid(f.query) && Valid(f.location) && Valid(f.remote) && Valid(f.sort) && ValidSlice(f.tags) && ValidSlice(f.sources)
  }

  function ExchangedSlice(x: TextSlice): TextSlice {
    if x.None? then None else Some(seq(|x.value|, i requires 0 <= i < |x.value| => Exchanged(x.value[i])))
  }

  lemma ExchangedSliceIsAlike(x: TextSlice)
    ensures AlikeSlices(x, ExchangedSlice(x)) && AlikeSlices(ExchangedSlice(x), x) && (ExchangedSlice(x) == x <==> ValidSlice(x))
  {
    if x.Some? {
      forall i | 0 <= i < |x.value|
        ensures Alike(x.value[i], Exchanged(x.value[i])) && (Exchanged(x.value[i]) == x.value[i] <==> Valid(x.value[i]))
      {
        ExchangedIsAlike(x.value[i]);
      }
      var y := ExchangedSlice(x).value;
      assert forall i :: 0 <= i < |y| ==> y[i] == Exchanged(x.value[i]);
      if ValidSlice(x) { assert y == x.value; }
    }
  }

  /** The filter with every bad byte exchanged for another. */
  function ExchangedFilter(f: RawFilter): RawFilter {
    f.(query := Exchanged(f.query), location := Exchanged(f.location), remote := Exchanged(f.remote),
       sort := Exchanged(f.sort), tags := ExchangedSlice(f.tags), sources := ExchangedSlice(f.sources))
  }

  lemma ExchangedFilterIsAlike(f: RawFilter)
    ensures AlikeFilters(ExchangedFilter(f), f) && (ExchangedFilter(f) == f <==> ValidFilter(f))
  {
    ExchangedIsAlike(f.query);
    ExchangedIsAlike(f.location);
    ExchangedIsAlike(f.remote);
    ExchangedIsAlike(f.sort);
    ExchangedSliceIsAlike(f.tags);
    ExchangedSliceIsAlike(f.sources);
  }

  lemma ValidAlikeSliceIsSame(x: TextSlice, y: TextSlice)
    requires ValidSlice(x) && AlikeSlices(y, x)
    ensures y == x
  {
    if x.Some? {
      forall i | 0 <= i < |x.value| ensures y.value[i] == x.value[i] {
        ValidAlikeIsSame(x.value[i], y.value[i]);
      }
      assert y.value == x.value;
    }
  }

  /** The exact extent of unique keys: a filter shares its encoding with no other filter if and only if
      all its texts are valid UTF-8. */
  lemma ValidFiltersStandAlone(f: RawFilter)
    ensures (forall g :: EncodeRaw(g) == EncodeRaw(f) ==> g == f) <==> ValidFilter(f)
  {
    ExchangedFilterIsAlike(f);
    FiltersCollideExactly(ExchangedFilter(f), f);
    if ValidFilter(f) {
      forall g | EncodeRaw(g) == EncodeRaw(f) ensures g == f {
        FiltersCollideExactly(g, f);
        ValidAlikeIsSame(f.query, g.query);
        ValidAlikeIsSame(f.location, g.location);
        ValidAlikeIsSame(f.remote, g.remote);
        ValidAlikeIsSame(f.sort, g.sort);
        ValidAlikeSliceIsSame(f.tags, g.tags);
        ValidAlikeSliceIsSame(f.sources, g.sources);
      }
    }
  }

  // ---- A valid filter is encoded as before ----

  function RunesOf(x: Slice): TextSlice {
    if x.None? then None else Some(seq(|x.value|, i requires 0 <= i < |x.value| => Runes(x.value[i])))
  }

  function Raw(f: SearchFilter): RawFilter {
    RawFilter(Runes(f.query), Runes(f.location), Runes(f.remote), RunesOf(f.tags), f.salaryMin, RunesOf(f.sources),
              f.page, f.perPage, Runes(f.sort))
  }

  lemma {:induction false} ItemsPrintAlike(items: seq<string>, first: bool)
    ensures PrintTexts(RunesOf(Some(items)).value, first) == PrintItems(items, first)
    decreases |items|
  {
    if items != [] {
      RunesPrintAlike(items[0]);
      ItemsPrintAlike(items[1..], false);
      assert RunesOf(Some(items)).value[1..] == RunesOf(Some(items[1..])).value;
    }
  }

  ghost predicate PrintAlike(v: TextValue, w: Value) {
    PrintTextValue(v) == PrintValue(w)
  }

  lemma StrPrintsAlike(s: string)
    ensures PrintAlike(TextStr(Runes(s)), Str(s))
  {
    RunesPrintAlike(s);
  }

  lemma SlicePrintsAlike(x: Slice)
    ensures PrintAlike(TextList(RunesOf(x)), List(x))
  {
    if x.Some? { ItemsPrintAlike(x.value, true); }
  }

  lemma {:induction false} MembersPrintAlike(names: seq<string>, xs: seq<TextValue>, ys: seq<Value>, lead: char)
    requires |names| == |xs| == |ys| && forall i :: 0 <= i < |xs| ==> PrintAlike(xs[i], ys[i])
    ensures PrintTextMembers(names, xs, lead) == PrintMembers(names, ys, lead)
    decreases |names|
  {
    if names != [] {
      assert PrintAlike(xs[0], ys[0]);
      MembersPrintAlike(names[1..], xs[1..], ys[1..], ',');
    }
  }

  /** For valid text the encoding is the one that has a left inverse. */
  lemma ValidFiltersEncodeAlike(f: SearchFilter)
    ensures EncodeRaw(Raw(f)) == SearchKey.Encode(f)
  {
    StrPrintsAlike(f.query);
    StrPrintsAlike(f.location);
    StrPrintsAlike(f.remote);
    SlicePrintsAlike(f.tags);
    SlicePrintsAlike(f.sources);
    StrPrintsAlike(f.sort);
    var xs, ys := RawValues(Raw(f)), SearchKey.Values(f);
    assert forall i :: 0 <= i < 9 ==> PrintAlike(xs[i], ys[i]);
    MembersPrintAlike(SearchKey.NAMES, xs, ys, '{');
  }
}
