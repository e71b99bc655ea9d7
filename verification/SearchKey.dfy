/** encoding/json for the values a search filter holds: a printer, and a reader that undoes it. */
module Json {
  import opened Prelude
  import opened Filters
  import Decimal

  type Parse<T> = Option<(T, string)>

  // ---- Strings ----

  function HexDigit(n: int): char
    requires 0 <= n < 16
  {
    if n < 10 then '0' + n as char else 'a' + (n - 10) as char
  }

  function HexValue(c: char): (r: Option<int>)
    ensures r.Some? ==> 0 <= r.value < 16
  {
    if '0' <= c <= '9' then Some(c as int - '0' as int)
    else if 'a' <= c <= 'f' then Some(c as int - 'a' as int + 10)
    else if 'A' <= c <= 'F' then Some(c as int - 'A' as int + 10)
    else None
  }

  function Hex4(n: int): string
    requires 0 <= n < 0x1_0000
  {
    [HexDigit(n / 4096), HexDigit(n / 256 % 16), HexDigit(n / 16 % 16), HexDigit(n % 16)]
  }

  /** The other control characters, the HTML characters, and the two JavaScript line separators. */
  predicate NeedsHex(c: char) {
    c < ' ' || c == '<' || c == '>' || c == '&' || c == '\U{2028}' || c == '\U{2029}'
  }

  function EscapeChar(c: char): (s: string)
    ensures s != "" && s[0] != '\"'
  {
    if c == '\"' then "\\\"" else if c == '\\' then "\\\\"
    else if c == '\U{08}' then "\\b" else if c == '\U{0C}' then "\\f"
    else if c == '\n' then "\\n" else if c == '\r' then "\\r" else if c == '\t' then "\\t"
    else if NeedsHex(c) then "\\u" + Hex4(c as int)
    else [c]
  }

  function Escape(s: string): string {
    if s == "" then "" else EscapeChar(s[0]) + Escape(s[1..])
  }

  function Quote(s: string): string {
    "\"" + Escape(s) + "\""
  }

  function ReadHex4(s: string): Option<int> {
    if |s| < 4 then None
    else
      var a, b, c, d := HexValue(s[0]), HexValue(s[1]), HexValue(s[2]), HexValue(s[3]);
      if a.None? || b.None? || c.None? || d.None? then None
      else Some(a.value * 4096 + b.value * 256 + c.value * 16 + d.value)
  }

  /** The character that a two-character escape names. */
  function ShortEscape(c: char): Option<char> {
    if c == '\"' || c == '\\' || c == '/' then Some(c)
    else if c == 'b' then Some('\U{08}') else if c == 'f' then Some('\U{0C}')
    else if c == 'n' then Some('\n') else if c == 'r' then Some('\r') else if c == 't' then Some('\t')
    else None
  }

  /** One character of a string literal, escaped or plain. */
  function ReadChar(s: string): (r: Parse<char>)
    ensures r.Some? ==> |r.value.1| < |s|
  {
    if s == "" || s[0] < ' ' || s[0] == '\"' then None
    else if s[0] != '\\' then Some((s[0], s[1..]))
    else if |s| < 2 then None
    else if s[1] == 'u' then
      var n := ReadHex4(s[2..]);
      if n.None? || 0xD800 <= n.value < 0xE000 then None else Some((n.value as char, s[6..]))
    else
      var c := ShortEscape(s[1]);
      if c.None? then None else Some((c.value, s[2..]))
  }

  /** The rest of a string literal, up to and including its closing quote. */
  function ReadChars(s: string): (r: Parse<string>)
    ensures r.Some? ==> |r.value.1| < |s|
    decreases |s|
  {
    if s != "" && s[0] == '\"' then Some(("", s[1..]))
    else
      var first := ReadChar(s);
      if first.None? then None
      else
        var more := ReadChars(first.value.1);
        if more.None? then None else Some(([first.value.0] + more.value.0, more.value.1))
  }

  function ReadString(s: string): (r: Parse<string>)
    ensures r.Some? ==> |r.value.1| < |s|
  {
    if s == "" || s[0] != '\"' then None else ReadChars(s[1..])
  }

  lemma HexDigitValue(n: int)
    requires 0 <= n < 16
    ensures HexValue(HexDigit(n)) == Some(n)
  {
  }

  lemma HexSplits(n: int)
    requires 0 <= n < 0x1_0000
    ensures n == n / 4096 * 4096 + n / 256 % 16 * 256 + n / 16 % 16 * 16 + n % 16
  {
    var p, q, r := n / 16, n / 256, n / 4096;
    assert n == p * 16 + n % 16;
    assert p == q * 16 + p % 16;
    assert q == r * 16 + q % 16;
  }

  lemma ReadHex4Hex4(n: int, rest: string)
    requires 0 <= n < 0x1_0000
    ensures ReadHex4(Hex4(n) + rest) == Some(n)
  {
    HexDigitValue(n / 4096);
    HexDigitValue(n / 256 % 16);
    HexDigitValue(n / 16 % 16);
    HexDigitValue(n % 16);
    HexSplits(n);
  }

  lemma ReadCharEscape(c: char, rest: string)
    ensures ReadChar(EscapeChar(c) + rest) == Some((c, rest))
  {
    var s := EscapeChar(c) + rest;
    if |EscapeChar(c)| == 6 {
      ReadHex4Hex4(c as int, rest);
      assert s[2..] == Hex4(c as int) + rest && s[6..] == rest;
    } else if |EscapeChar(c)| == 2 {
      assert s[2..] == rest;
    } else {
      assert s[1..] == rest;
    }
  }

  lemma {:induction false} ReadCharsEscape(t: string, rest: string)
    ensures ReadChars(Escape(t) + "\"" + rest) == Some((t, rest))
  {
    var s := Escape(t) + "\"" + rest;
    if t == "" {
      assert s[1..] == rest;
    } else {
      var tail := Escape(t[1..]) + "\"" + rest;
      assert s == EscapeChar(t[0]) + tail;
      ReadCharEscape(t[0], tail);
      ReadCharsEscape(t[1..], rest);
      assert [t[0]] + t[1..] == t;
    }
  }

  lemma ReadStringQuote(t: string, rest: string)
    ensures ReadString(Quote(t) + rest) == Some((t, rest))
  {
    assert (Quote(t) + rest)[1..] == Escape(t) + "\"" + rest;
    ReadCharsEscape(t, rest);
  }

  // ---- Numbers ----

  function DigitsEnd(s: string): (n: nat)
    ensures n <= |s| && Decimal.AllDigits(s[..n]) && (n < |s| ==> !Decimal.IsDigit(s[n]))
  {
    if s == "" || !Decimal.IsDigit(s[0]) then 0 else 1 + DigitsEnd(s[1..])
  }

  function ReadNat(s: string): Parse<nat> {
    var n := DigitsEnd(s);
    if n == 0 then None else Some((Decimal.ParseNat(s[..n]), s[n..]))
  }

  function ReadInt(s: string): Parse<int> {
    if s != "" && s[0] == '-' then
      match ReadNat(s[1..]) case None => None case Some((n, rest)) => Some((0 - n, rest))
    else
      match ReadNat(s) case None => None case Some((n, rest)) => Some((n, rest))
  }

  predicate StartsWithDigit(s: string) {
    s != "" && Decimal.IsDigit(s[0])
  }

  lemma {:induction false} DigitsEndIs(digits: string, rest: string)
    requires Decimal.AllDigits(digits) && !StartsWithDigit(rest)
    ensures DigitsEnd(digits + rest) == |digits|
  {
    if digits == "" {
      assert digits + rest == rest;
    } else {
      assert (digits + rest)[1..] == digits[1..] + rest;
      assert Decimal.IsDigit(digits[0]);
      DigitsEndIs(digits[1..], rest);
    }
  }

  lemma ReadNatPrint(n: nat, rest: string)
    requires !StartsWithDigit(rest)
    ensures ReadNat(Decimal.PrintNat(n) + rest) == Some((n, rest))
  {
    var digits := Decimal.PrintNat(n);
    Decimal.ParsePrintNat(n);
    DigitsEndIs(digits, rest);
    assert (digits + rest)[..|digits|] == digits && (digits + rest)[|digits|..] == rest;
  }

  lemma MinusSplits(digits: string, rest: string)
    ensures var s := "-" + digits + rest; s[0] == '-' && s[1..] == digits + rest
  {
  }

  lemma ReadIntPrint(i: int, rest: string)
    requires !StartsWithDigit(rest)
    ensures ReadInt(Decimal.Print(i) + rest) == Some((i, rest))
  {
    if i < 0 {
      ReadNatPrint(-i, rest);
      MinusSplits(Decimal.PrintNat(-i), rest);
    } else {
      ReadNatPrint(i, rest);
      assert Decimal.IsDigit(Decimal.PrintNat(i)[0]);
    }
  }

  // ---- Slices of strings ----

  /** The items from the first on, with the closing bracket; a comma leads all but the first. */
  function PrintItems(items: seq<string>, first: bool): string {
    if items == [] then "]" else (if first then "" else ",") + Quote(items[0]) + PrintItems(items[1..], false)
  }

  function PrintSlice(s: Slice): string {
    if s.None? then "null" else "[" + PrintItems(s.value, true)
  }

  function ReadItem(s: string, first: bool): (r: Parse<string>)
    ensures r.Some? ==> |r.value.1| < |s|
  {
    if first then ReadString(s) else if s == "" || s[0] != ',' then None else ReadString(s[1..])
  }

  function ReadItems(s: string, first: bool): Parse<seq<string>>
    decreases |s|
  {
    if s != "" && s[0] == ']' then Some(([], s[1..]))
    else
      var item := ReadItem(s, first);
      if item.None? then None
      else
        var more := ReadItems(item.value.1, false);
        if more.None? then None else Some(([item.value.0] + more.value.0, more.value.1))
  }

  function ReadSlice(s: string): Parse<Slice> {
    if |s| >= 4 && s[..4] == "null" then Some((None, s[4..]))
    else if s == "" || s[0] != '[' then None
    else
      var items := ReadItems(s[1..], true);
      if items.None? then None else Some((Some(items.value.0), items.value.1))
  }

  lemma ReadItemPrint(item: string, first: bool, rest: string)
    ensures var s := (if first then "" else ",") + Quote(item) + rest; s[0] != ']' && ReadItem(s, first) == Some((item, rest))
  {
    var s := (if first then "" else ",") + Quote(item) + rest;
    assert (if first then s else s[1..]) == Quote(item) + rest;
    ReadStringQuote(item, rest);
  }

  lemma {:induction false} ReadItemsPrint(items: seq<string>, first: bool, rest: string)
    ensures ReadItems(PrintItems(items, first) + rest, first) == Some((items, rest))
    decreases |items|
  {
    var s := PrintItems(items, first) + rest;
    if items == [] {
      assert s[1..] == rest;
    } else {
      var tail := PrintItems(items[1..], false) + rest;
      assert s == (if first then "" else ",") + Quote(items[0]) + tail;
      ReadItemPrint(items[0], first, tail);
      ReadItemsPrint(items[1..], false, rest);
      assert [items[0]] + items[1..] == items;
    }
  }

  lemma ReadSlicePrint(slice: Slice, rest: string)
    ensures ReadSlice(PrintSlice(slice) + rest) == Some((slice, rest))
  {
    var s := PrintSlice(slice) + rest;
    if slice.None? {
      assert s[..4] == "null" && s[4..] == rest;
    } else {
      assert s[0] == '[' && s[1..] == PrintItems(slice.value, true) + rest;
      ReadItemsPrint(slice.value, true, rest);
    }
  }

  // ---- Values and objects ----

  datatype Value = Str(s: string) | Num(n: int) | List(items: Slice)
  datatype Kind = StrKind | NumKind | ListKind

  function KindOf(v: Value): Kind {
    match v case Str(_) => StrKind case Num(_) => NumKind case List(_) => ListKind
  }

  function PrintValue(v: Value): string {
    match v case Str(s) => Quote(s) case Num(n) => Decimal.Print(n) case List(items) => PrintSlice(items)
  }

  function ReadValue(s: string, kind: Kind): Parse<Value> {
    match kind
    case StrKind => (match ReadString(s) case None => None case Some((v, rest)) => Some((Str(v), rest)))
    case NumKind => (match ReadInt(s) case None => None case Some((v, rest)) => Some((Num(v), rest)))
    case ListKind => (match ReadSlice(s) case None => None case Some((v, rest)) => Some((List(v), rest)))
  }

  lemma ReadValuePrint(v: Value, rest: string)
    requires !StartsWithDigit(rest)
    ensures ReadValue(PrintValue(v) + rest, KindOf(v)) == Some((v, rest))
  {
    match v
    case Str(s) => ReadStringQuote(s, rest);
    case Num(n) => ReadIntPrint(n, rest);
    case List(items) => ReadSlicePrint(items, rest);
  }

  /** An opening brace or a comma, the name, a colon and the value. */
  function PrintMember(name: string, v: Value, lead: char): string {
    [lead] + Quote(name) + ":" + PrintValue(v)
  }

  function PrintMembers(names: seq<string>, values: seq<Value>, lead: char): string
    requires |names| == |values|
  {
    if names == [] then "}" else PrintMember(names[0], values[0], lead) + PrintMembers(names[1..], values[1..], ',')
  }

  function ReadMember(s: string, name: string, kind: Kind, lead: char): Parse<Value> {
    if s == "" || s[0] != lead then None else ReadAfterName(ReadString(s[1..]), name, kind)
  }

  function ReadAfterName(found: Parse<string>, name: string, kind: Kind): Parse<Value> {
    if found.None? || found.value.0 != name || found.value.1 == "" || found.value.1[0] != ':' then None
    else ReadValue(found.value.1[1..], kind)
  }

  function ReadMembers(s: string, names: seq<string>, kinds: seq<Kind>, lead: char): Option<seq<Value>>
    requires |names| == |kinds|
    decreases |names|
  {
    if names == [] then if s == "}" then Some([]) else None
    else
      var value := ReadMember(s, names[0], kinds[0], lead);
      if value.None? then None
      else
        var more := ReadMembers(value.value.1, names[1..], kinds[1..], ',');
        if more.None? then None else Some([value.value.0] + more.value)
  }

  lemma MemberSplits(lead: char, name: string, value: string, rest: string)
    ensures var s := [lead] + name + ":" + value + rest; s[0] == lead && s[1..] == name + (":" + (value + rest))
  {
  }

  lemma ReadAfterNameIs(name: string, kind: Kind, rest: string)
    ensures ReadAfterName(Some((name, ":" + rest)), name, kind) == ReadValue(rest, kind)
  {
    assert (":" + rest)[1..] == rest;
  }

  lemma ReadMemberPrint(name: string, v: Value, lead: char, rest: string)
    requires !StartsWithDigit(rest)
    ensures ReadMember(PrintMember(name, v, lead) + rest, name, KindOf(v), lead) == Some((v, rest))
  {
    var value := PrintValue(v) + rest;
    MemberSplits(lead, Quote(name), PrintValue(v), rest);
    ReadStringQuote(name, ":" + value);
    ReadAfterNameIs(name, KindOf(v), value);
    ReadValuePrint(v, rest);
  }

  lemma ReadMembersStep(s: string, names: seq<string>, kinds: seq<Kind>, lead: char, v: Value, rest: string, values: seq<Value>)
    requires |names| == |kinds| && names != []
    requires ReadMember(s, names[0], kinds[0], lead) == Some((v, rest))
    requires ReadMembers(rest, names[1..], kinds[1..], ',') == Some(values)
    ensures ReadMembers(s, names, kinds, lead) == Some([v] + values)
  {
  }

  function Kinds(values: seq<Value>): (kinds: seq<Kind>)
    ensures |kinds| == |values|
  {
    seq(|values|, i requires 0 <= i < |values| => KindOf(values[i]))
  }

  lemma KindsTail(values: seq<Value>)
    requires values != []
    ensures Kinds(values)[1..] == Kinds(values[1..]) && Kinds(values)[0] == KindOf(values[0])
  {
  }

  lemma MembersStart(names: seq<string>, values: seq<Value>)
    requires |names| == |values|
    ensures !StartsWithDigit(PrintMembers(names, values, ','))
  {
  }

  /** Reading what was printed gives the values back. */
  lemma {:induction false} ReadMembersPrint(names: seq<string>, values: seq<Value>, lead: char)
    requires |names| == |values|
    ensures ReadMembers(PrintMembers(names, values, lead), names, Kinds(values), lead) == Some(values)
    decreases |names|
  {
    if names != [] {
      var more := PrintMembers(names[1..], values[1..], ',');
      MembersStart(names[1..], values[1..]);
      ReadMemberPrint(names[0], values[0], lead, more);
      ReadMembersPrint(names[1..], values[1..], ',');
      KindsTail(values);
      ReadMembersStep(PrintMembers(names, values, lead), names, Kinds(values), lead, values[0], more, values[1..]);
      assert [values[0]] + values[1..] == values;
    }
  }
}

/** internal/service/cached_job_service.go, searchCacheKey, and pkg/redis/keys.go. */
module SearchKey {
  import opened Prelude
  import opened Filters
  import opened Json

  // SearchFilter has no JSON tags, so its members go by their Go field names.
  const NAMES: seq<string> := ["Query", "Location", "Remote", "Tags", "SalaryMin", "Sources", "Page", "PerPage", "Sort"]

  const KINDS: seq<Kind> := [StrKind, StrKind, StrKind, ListKind, NumKind, ListKind, NumKind, NumKind, StrKind]

  function Values(f: SearchFilter): (values: seq<Value>)
    ensures |values| == |NAMES| && Kinds(values) == KINDS
  {
    [Str(f.query), Str(f.location), Str(f.remote), List(f.tags), Num(f.salaryMin), List(f.sources),
     Num(f.page), Num(f.perPage), Str(f.sort)]
  }

  function FromValues(v: seq<Value>): SearchFilter
    requires |v| == |NAMES| && Kinds(v) == KINDS
  {
    assert forall i :: 0 <= i < 9 ==> KindOf(v[i]) == KINDS[i];
    SearchFilter(v[0].s, v[1].s, v[2].s, v[3].items, v[4].n, v[5].items, v[6].n, v[7].n, v[8].s)
  }

  /** json.Marshal(filter) */
  function Encode(f: SearchFilter): string {
    PrintMembers(NAMES, Values(f), '{')
  }

  function Decode(s: string): Option<SearchFilter> {
    var v := ReadMembers(s, NAMES, KINDS, '{');
    if v.Some? && |v.value| == |NAMES| && Kinds(v.value) == KINDS then Some(FromValues(v.value)) else None
  }

  /** Printing a filter loses nothing: escapes, null against empty slices and integers all come back. */
  lemma DecodeEncode(f: SearchFilter)
    ensures Decode(Encode(f)) == Some(f)
  {
    ReadMembersPrint(NAMES, Values(f), '{');
  }

  const SEARCH_PREFIX := "cache:search:"
  const JOB_PREFIX := "cache:job:"
  const STATS_KEY := "cache:stats:market"

  /** `hash` stands for hex(SHA-256(.)). */
  function KeyOf(f: SearchFilter, hash: string -> string): string {
    SEARCH_PREFIX + hash(Encode(f))
  }

  function JobKey(id: string): string {
    JOB_PREFIX + id
  }

  /** The glob cache:search:* */
  predicate IsSearchKey(key: string) {
    SEARCH_PREFIX <= key
  }

  /** Two filters share a cache key only if they are the same filter or their encodings collide. */
  lemma SameKeySameFilter(f: SearchFilter, g: SearchFilter, hash: string -> string)
    requires KeyOf(f, hash) == KeyOf(g, hash)
    ensures f == g || (Encode(f) != Encode(g) && hash(Encode(f)) == hash(Encode(g)))
  {
    assert KeyOf(f, hash)[|SEARCH_PREFIX|..] == hash(Encode(f));
    assert KeyOf(g, hash)[|SEARCH_PREFIX|..] == hash(Encode(g));
    DecodeEncode(f);
    DecodeEncode(g);
  }

  /** Searches, jobs and the statistics are kept under different keys, and the invalidation pattern
      covers the searches and nothing else. */
  lemma KeySpacesAreDisjoint(f: SearchFilter, id: string, hash: string -> string)
    ensures KeyOf(f, hash) != JobKey(id) && KeyOf(f, hash) != STATS_KEY && JobKey(id) != STATS_KEY
    ensures IsSearchKey(KeyOf(f, hash)) && !IsSearchKey(JobKey(id)) && !IsSearchKey(STATS_KEY)
  {
    PrefixesDiffer(hash(Encode(f)), id);
  }

  lemma PrefixesDiffer(a: string, b: string)
    ensures SEARCH_PREFIX + a != JOB_PREFIX + b && SEARCH_PREFIX + a != STATS_KEY && JOB_PREFIX + b != STATS_KEY
    ensures IsSearchKey(SEARCH_PREFIX + a) && !IsSearchKey(JOB_PREFIX + b) && !IsSearchKey(STATS_KEY)
  {
    assert (JOB_PREFIX + b)[6] == 'j' && (SEARCH_PREFIX + a)[6] == 's' && STATS_KEY[6] == 's';
    assert (SEARCH_PREFIX + a)[7] == 'e' && STATS_KEY[7] == 't' && SEARCH_PREFIX[6] == 's' && SEARCH_PREFIX[7] == 'e';
  }

  lemma JobKeysDiffer(a: string, b: string)
    requires JobKey(a) == JobKey(b)
    ensures a == b
  {
    assert JobKey(a)[|JOB_PREFIX|..] == a && JobKey(b)[|JOB_PREFIX|..] == b;
  }
}
