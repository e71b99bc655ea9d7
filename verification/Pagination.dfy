/** internal/handler/job_handler.go, Search: the filter that a request asks for. */
module JobHandler {
  import opened Prelude
  import opened Filters
  import Decimal
  import Fingerprint
  import SearchQuery
  import Strings

  /** The query string; an absent parameter is empty. */
  datatype Params = Params(q: string, location: string, remote: string, tags: string, salaryMin: string, source: string,
                           page: string, perPage: string, sort: string)

  /** strconv.Atoi; None is its error. */
  function Atoi(s: string): (r: Option<int>)
    ensures r.Some? ==> IsInt64(r.value)
  {
    var signed := s != "" && (s[0] == '-' || s[0] == '+');
    var digits := if signed then s[1..] else s;
    if digits == "" || !Decimal.AllDigits(digits) then None
    else
      var n: int := if signed && s[0] == '-' then 0 - Decimal.ParseNat(digits) else Decimal.ParseNat(digits);
      if IsInt64(n) then Some(n) else None
  }

  /** Every int a client prints in decimal is read back. */
  lemma AtoiPrint(i: int)
    requires IsInt64(i)
    ensures Atoi(Decimal.Print(i)) == Some(i)
  {
    var digits := Decimal.PrintNat(if i < 0 then -i else i);
    Decimal.ParsePrintNat(if i < 0 then -i else i);
    assert Decimal.IsDigit(digits[0]);
    assert ("-" + digits)[1..] == digits;
  }

  // ---- Exactly which texts are read as a number ----

  function Zeros(n: nat): string {
    seq(n, i => '0')
  }

  /** An optional sign, any zeros and the decimal digits of the number. */
  ghost predicate Spells(s: string, n: int) {
    exists sign: string, zeros: nat :: SpelledBy(s, sign, zeros, n)
  }

  predicate SpelledBy(s: string, sign: string, zeros: nat, n: int) {
    IsSign(sign, n) && s == sign + (Zeros(zeros) + Decimal.PrintNat(if n < 0 then -n else n))
  }

  predicate IsSign(sign: string, n: int) {
    (sign == "" && n >= 0) || (sign == "+" && n >= 0) || (sign == "-" && n <= 0)
  }

  lemma PrintAppend(n: nat, c: char)
    requires Decimal.IsDigit(c)
    ensures n > 0 ==> Decimal.PrintNat(10 * n + Decimal.DigitValue(c)) == Decimal.PrintNat(n) + [c]
    ensures Decimal.PrintNat(Decimal.DigitValue(c)) == [c]
  {
  }

  lemma ZerosAppend(zeros: nat)
    ensures Zeros(zeros) + Decimal.PrintNat(0) == Zeros(zeros + 1)
  {
    assert Decimal.PrintNat(0) == "0";
  }

  /** A text of digits is some zeros and the digits of the number that it reads as. */
  lemma {:induction false} DigitsArePadded(s: string) returns (zeros: nat)
    requires s != "" && Decimal.AllDigits(s)
    ensures s == Zeros(zeros) + Decimal.PrintNat(Decimal.ParseNat(s))
  {
    var front, c := Front(s), Last(s);
    assert s == front + [c];
    PrintAppend(Decimal.ParseNat(front), c);
    if front == "" {
      zeros := 0;
    } else {
      var before := DigitsArePadded(front);
      ZerosAppend(before);
      zeros := before + if Decimal.ParseNat(front) == 0 then 1 else 0;
    }
  }

  lemma {:induction false} PaddedIsRead(zeros: nat, n: nat)
    ensures Decimal.AllDigits(Zeros(zeros) + Decimal.PrintNat(n))
    ensures Decimal.ParseNat(Zeros(zeros) + Decimal.PrintNat(n)) == n
  {
    var s := Zeros(zeros) + Decimal.PrintNat(n);
    if n < 10 {
      assert Front(s) == Zeros(zeros) && Last(s) == Decimal.DigitChar(n);
      ZerosAreZero(zeros);
    } else {
      assert Front(s) == Zeros(zeros) + Decimal.PrintNat(n / 10);
      PaddedIsRead(zeros, n / 10);
    }
  }

  lemma {:induction false} ZerosAreZero(zeros: nat)
    ensures Decimal.AllDigits(Zeros(zeros)) && Decimal.ParseNat(Zeros(zeros)) == 0
  {
    if zeros > 0 {
      assert Front(Zeros(zeros)) == Zeros(zeros - 1);
      ZerosAreZero(zeros - 1);
    }
  }

  lemma SignedIsRead(sign: string, digits: string)
    requires sign == "" || sign == "+" || sign == "-"
    requires digits != "" && Decimal.AllDigits(digits)
    ensures var n: int := if sign == "-" then 0 - Decimal.ParseNat(digits) else Decimal.ParseNat(digits);
            Atoi(sign + digits) == if IsInt64(n) then Some(n) else None
  {
    assert Decimal.IsDigit(digits[0]);
    assert sign != "" ==> (sign + digits)[1..] == digits && (sign + digits)[0] == sign[0];
    assert sign == "" ==> sign + digits == digits;
  }

  lemma ReadIsSigned(s: string) returns (sign: string, digits: string)
    requires Atoi(s).Some?
    ensures sign == "" || sign == "+" || sign == "-"
    ensures s == sign + digits && digits != "" && Decimal.AllDigits(digits)
  {
    if s[0] == '-' || s[0] == '+' {
      sign, digits := s[..1], s[1..];
    } else {
      sign, digits := "", s;
    }
  }

  lemma SpellingIsRead(s: string, sign: string, zeros: nat, n: int)
    requires SpelledBy(s, sign, zeros, n)
    ensures Atoi(s) == if IsInt64(n) then Some(n) else None
  {
    var m := if n < 0 then -n else n;
    PaddedIsRead(zeros, m);
    SignedIsRead(sign, Zeros(zeros) + Decimal.PrintNat(m));
  }

  lemma ReadIsSpelled(s: string) returns (sign: string, zeros: nat)
    requires Atoi(s).Some?
    ensures SpelledBy(s, sign, zeros, Atoi(s).value)
  {
    var digits;
    sign, digits := ReadIsSigned(s);
    SignedIsRead(sign, digits);
    zeros := DigitsArePadded(digits);
  }

  /** Atoi reads exactly the spellings of the numbers that fit an int. */
  lemma AtoiReadsSpellings(s: string, n: int)
    ensures Atoi(s) == Some(n) <==> IsInt64(n) && Spells(s, n)
  {
    if Atoi(s) == Some(n) {
      var sign, zeros := ReadIsSpelled(s);
      assert SpelledBy(s, sign, zeros, n);
    }
    if IsInt64(n) && Spells(s, n) {
      var sign: string, zeros: nat :| SpelledBy(s, sign, zeros, n);
      SpellingIsRead(s, sign, zeros, n);
    }
  }

  /** The first n parts trimmed and edited, blank ones dropped. */
  function Cleaned(parts: seq<string>, n: nat, edit: string -> string): seq<string>
    requires n <= |parts|
  {
    if n == 0 then []
    else
      var trimmed := Fingerprint.TrimSpace(parts[n - 1]);
      Cleaned(parts, n - 1, edit) + if trimmed != "" then [edit(trimmed)] else []
  }

  predicate HasText(parts: seq<string>, k: nat) {
    k < |parts| && Fingerprint.TrimSpace(parts[k]) != ""
  }

  /** The list is the parts at those positions, trimmed and edited. */
  ghost predicate PartsAt(list: seq<string>, at: seq<nat>, parts: seq<string>, edit: string -> string) {
    |list| == |at| && forall j :: 0 <= j < |at| ==> at[j] < |parts| && list[j] == edit(Fingerprint.TrimSpace(parts[at[j]]))
  }

  function TextPositions(parts: seq<string>): nat -> bool {
    (k: nat) => HasText(parts, k)
  }

  lemma NextPart(list: seq<string>, at: seq<nat>, parts: seq<string>, n: nat, edit: string -> string)
    requires n < |parts| && PartsAt(list, at, parts, edit) && Positions(at, n, TextPositions(parts))
    ensures var more := if HasText(parts, n) then [edit(Fingerprint.TrimSpace(parts[n]))] else [];
            PartsAt(list + more, NextPosition(at, n, TextPositions(parts)), parts, edit)
    ensures Positions(NextPosition(at, n, TextPositions(parts)), n + 1, TextPositions(parts))
  {
    NextPositionIsLast(at, n, TextPositions(parts));
  }

  lemma CleanedStep(parts: seq<string>, n: nat, edit: string -> string)
    requires 0 < n <= |parts|
    ensures Cleaned(parts, n, edit)
         == Cleaned(parts, n - 1, edit) + if HasText(parts, n - 1) then [edit(Fingerprint.TrimSpace(parts[n - 1]))] else []
  {
  }

  /** Which parts come back, and in what order: those that are not blank, each in the place it has among
      them. */
  lemma {:induction false} CleanedPositions(parts: seq<string>, n: nat, edit: string -> string) returns (at: seq<nat>)
    requires n <= |parts|
    ensures Positions(at, n, TextPositions(parts)) && PartsAt(Cleaned(parts, n, edit), at, parts, edit)
  {
    if n == 0 {
      at := [];
    } else {
      var before := CleanedPositions(parts, n - 1, edit);
      at := NextPosition(before, n - 1, TextPositions(parts));
      NextPart(Cleaned(parts, n - 1, edit), before, parts, n - 1, edit);
      CleanedStep(parts, n, edit);
    }
  }

  /** So a parameter of comma-separated items gives its items, trimmed and edited, the blank ones left
      out. */
  lemma CleanedListPositions(parts: seq<string>, edit: string -> string) returns (at: seq<nat>)
    requires parts != [] && forall p :: p in parts ==> ',' !in p
    ensures Positions(at, |parts|, TextPositions(parts))
    ensures PartsAt(CleanedList(Strings.Join(parts, ','), edit), at, parts, edit)
  {
    Strings.SplitJoin(parts, ',');
    at := CleanedPositions(parts, |parts|, edit);
    if Strings.Join(parts, ',') == "" {
      assert Strings.Split("", ',') == [""];
      assert Cleaned([""], 1, edit) == [];
    }
  }

  function CleanedList(raw: string, edit: string -> string): seq<string> {
    var parts := Strings.Split(raw, ',');
    if raw == "" then [] else Cleaned(parts, |parts|, edit)
  }

  /** Tags reach the filter in lower case, which the search needs and on which the alert agrees. */
  lemma {:induction false} CleanedAreLower(parts: seq<string>, n: nat, low: char -> char)
    requires n <= |parts| && Fingerprint.LowersRunes(low)
    ensures forall t :: t in Cleaned(parts, n, s => Fingerprint.ToLower(s, low)) ==> Fingerprint.ToLower(t, low) == t
  {
    if n > 0 {
      CleanedAreLower(parts, n - 1, low);
      var trimmed := Fingerprint.TrimSpace(parts[n - 1]);
      assert Fingerprint.ToLower(Fingerprint.ToLower(trimmed, low), low) == Fingerprint.ToLower(trimmed, low);
    }
  }

  method CleanList(raw: string, edit: string -> string) returns (list: Slice)
    ensures Items(list) == CleanedList(raw, edit)
    ensures list.None? <==> CleanedList(raw, edit) == []
  {
    list := None;
    if raw != "" {
      var parts := Strings.Split(raw, ',');
      for i := 0 to |parts|
        invariant Items(list) == Cleaned(parts, i, edit) && (list.None? <==> Cleaned(parts, i, edit) == [])
      {
        var trimmed := Fingerprint.TrimSpace(parts[i]);
        if trimmed != "" {
          list := Some(Items(list) + [edit(trimmed)]);
        }
      }
    }
  }

  /** What pagination and the search rely on. */
  predicate Bounded(f: SearchFilter) {
    1 <= f.page <= MAX_INT64 && 1 <= f.perPage <= 100 && 0 <= f.salaryMin <= MAX_INT64
  }

  method BuildFilter(p: Params, low: char -> char, up: char -> char) returns (f: SearchFilter)
    ensures Bounded(f)
    ensures Items(f.tags) == CleanedList(p.tags, s => Fingerprint.ToLower(s, low))
    ensures Items(f.sources) == CleanedList(p.source, s => SearchQuery.ToUpper(s, up))
    ensures f.page == match Atoi(p.page) case Some(n) => (if n >= 1 then n else 1) case None => 1
    ensures f.perPage == match Atoi(p.perPage) case Some(n) => (if n > 100 then 100 else if n >= 1 then n else 25) case None => 25
    ensures f.salaryMin == match Atoi(p.salaryMin) case Some(n) => (if n >= 0 then n else 0) case None => 0
    ensures f.query == Fingerprint.TrimSpace(p.q) && f.location == Fingerprint.TrimSpace(p.location)
    ensures f.remote == p.remote && f.sort == p.sort
  {
    f := SearchFilter(Fingerprint.TrimSpace(p.q), Fingerprint.TrimSpace(p.location), p.remote, None, 0, None, 1, 25, p.sort);
    var tags := CleanList(p.tags, s => Fingerprint.ToLower(s, low));
    var sources := CleanList(p.source, s => SearchQuery.ToUpper(s, up));
    f := f.(tags := tags, sources := sources);
    if p.salaryMin != "" {
      var n := Atoi(p.salaryMin);
      if n.Some? && n.value >= 0 {
        f := f.(salaryMin := n.value);
      }
    }
    if p.page != "" {
      var n := Atoi(p.page);
      if n.Some? && n.value >= 1 {
        f := f.(page := n.value);
      }
    }
    if p.perPage != "" {
      var n := Atoi(p.perPage);
      if n.Some? && n.value >= 1 {
        f := f.(perPage := if n.value > 100 then 100 else n.value);
      }
    }
  }
}

/** internal/service/postgres_job_service.go, and how the pages of one search fit together. */
module JobService {
  import opened Prelude
  import opened Jobs
  import opened Filters
  import opened Sql
  import opened SearchQuery

  datatype SearchResult = SearchResult(jobs: seq<Row>, total: nat, page: int, perPage: int, totalPages: int)

  /** Go's division truncates toward zero. */
  function TruncDiv(a: int, b: int): int
    requires b > 0
  {
    if a >= 0 then a / b else -(-a / b)
  }

  function TotalPages(total: nat, perPage: int): int {
    if perPage > 0 then TruncDiv(Wrap64(total + perPage - 1), perPage) else 0
  }

  function ServiceAnswer(f: SearchFilter, up: char -> char, counted: seq<Row>, table: string -> seq<Row>,
          engine: Engine): Answer<SearchResult> {
    match SearchAnswer(f, up, counted, table, engine)
    case DbError => DbError
    case Ok((jobs, total)) => Ok(SearchResult(jobs, total, f.page, f.perPage, TotalPages(total, f.perPage)))
  }

  method ServiceSearch(f: SearchFilter, up: char -> char, counted: seq<Row>, table: string -> seq<Row>, engine: Engine)
    returns (r: Answer<SearchResult>)
    ensures r == ServiceAnswer(f, up, counted, table, engine)
  {
    var found := Search(f, up, counted, table, engine);
    if found.DbError? {
      return DbError;
    }
    var totalPages := 0;
    if f.perPage > 0 {
      totalPages := TruncDiv(Wrap64(found.value.1 + f.perPage - 1), f.perPage);
    }
    return Ok(SearchResult(found.value.0, found.value.1, f.page, f.perPage, totalPages));
  }

  // ---- Pages tile the result ----

  /** One page of one search, all read from the same ordered snapshot of the table. */
  function PageAt(f: SearchFilter, rows: seq<Row>, engine: Engine, k: int): Answer<SearchResult> {
    ServiceAnswer(f.(page := k), c => c, rows, s => rows, engine)
  }

  lemma {:induction false} MatchingIgnoresPage(f: SearchFilter, k: int, rows: seq<Row>, engine: Engine)
    ensures Matching(f.(page := k), rows, engine) == Matching(f, rows, engine)
  {
    if rows != [] {
      MatchingIgnoresPage(f, k, Front(rows), engine);
    }
  }

  /** Page k of the matching rows m, or an error when the offset wraps round to a negative number. */
  function PageOf(m: seq<Row>, perPage: int, k: int): Answer<SearchResult> {
    var offset := OffsetOf(k, perPage);
    if offset < 0 then DbError
    else Ok(SearchResult(Cut(m, LimitOf(perPage), offset), |m|, k, perPage, TotalPages(|m|, perPage)))
  }

  lemma PageAtIsPageOf(f: SearchFilter, rows: seq<Row>, engine: Engine, k: int)
    requires f.salaryMin <= MAX_INTEGER
    ensures PageAt(f, rows, engine, k) == PageOf(Matching(f, rows, engine), f.perPage, k)
  {
    MatchingIgnoresPage(f, k, rows, engine);
  }

  type Pager = int -> Answer<SearchResult>

  function PagerOf(f: SearchFilter, rows: seq<Row>, engine: Engine): Pager {
    k => PageAt(f, rows, engine, k)
  }

  ghost predicate PagesList(pager: Pager, m: seq<Row>, perPage: int) {
    forall k :: pager(k) == PageOf(m, perPage, k)
  }

  lemma PagerPagesList(f: SearchFilter, rows: seq<Row>, engine: Engine)
    requires f.salaryMin <= MAX_INTEGER
    ensures PagesList(PagerOf(f, rows, engine), Matching(f, rows, engine), f.perPage)
  {
    forall k ensures PagerOf(f, rows, engine)(k) == PageOf(Matching(f, rows, engine), f.perPage, k) {
      PageAtIsPageOf(f, rows, engine, k);
    }
  }

  function JobsOf(r: Answer<SearchResult>): seq<Row> {
    match r case Ok(result) => result.jobs case DbError => []
  }

  /** The jobs of pages 1 to n, one after the other. */
  function ReadPages(pager: Pager, n: nat): seq<Row> {
    if n == 0 then [] else ReadPages(pager, n - 1) + JobsOf(pager(n))
  }

  /** Page k comes back, not empty and no larger than asked for, and reports the total, the number of
      pages, its own number and the size asked for. */
  ghost predicate PageTells(r: Answer<SearchResult>, total: nat, perPage: int, k: int) {
    && r.Ok? && 0 < |r.value.jobs| <= perPage && r.value.page == k && r.value.perPage == perPage
    && r.value.total == total && r.value.totalPages == TotalPages(total, perPage)
  }

  /** Read in order, the pages give every one of the rows m exactly once and in order. */
  ghost predicate Tiles(pager: Pager, m: seq<Row>, perPage: int) {
    var pages := TotalPages(|m|, perPage);
    && pages >= 0
    && ReadPages(pager, pages) == m
    && forall k :: 1 <= k <= pages ==> PageTells(pager(k), |m|, perPage, k)
  }

  /** Enough pages to hold the total, and none to spare. */
  lemma TotalPagesCovers(total: nat, perPage: int)
    requires 1 <= perPage && total + perPage - 1 <= MAX_INT64
    ensures TotalPages(total, perPage) >= 0
    ensures (TotalPages(total, perPage) - 1) * perPage < total <= TotalPages(total, perPage) * perPage
  {
    var sum := total + perPage - 1;
    assert sum == sum / perPage * perPage + sum % perPage;
  }

  predicate Fits(m: seq<Row>) {
    |m| + 100 <= MAX_INT64
  }

  lemma PageWithin(m: seq<Row>, perPage: int, k: int)
    requires 1 <= perPage <= 100 && Fits(m) && k >= 1 && (k - 1) * perPage < |m|
    ensures (k - 1) * perPage >= 0 && PageTells(PageOf(m, perPage, k), |m|, perPage, k)
    ensures JobsOf(PageOf(m, perPage, k)) == if k * perPage < |m| then m[(k - 1) * perPage..k * perPage] else m[(k - 1) * perPage..]
  {
    var start := (k - 1) * perPage;
    assert k * perPage == start + perPage;
    assert OffsetOf(k, perPage) == start;
  }

  lemma NextStart(n: nat, perPage: int)
    requires n > 0 && perPage > 0
    ensures n * perPage == (n - 1) * perPage + perPage && (n - 1) * perPage >= 0
    ensures n > 1 ==> (n - 2) * perPage < (n - 1) * perPage
  {
  }

  lemma NextSlice(m: seq<Row>, a: nat, b: nat)
    requires a < |m| && a <= b
    ensures m[..a] + (if b < |m| then m[a..b] else m[a..]) == if b < |m| then m[..b] else m
  {
  }

  lemma {:induction false} PagesArePrefix(pager: Pager, m: seq<Row>, perPage: int, n: nat)
    requires 1 <= perPage <= 100 && Fits(m) && PagesList(pager, m, perPage)
    requires n > 0 ==> (n - 1) * perPage < |m|
    ensures n * perPage >= 0
    ensures ReadPages(pager, n) == if n * perPage < |m| then m[..n * perPage] else m
  {
    if n > 0 {
      var start := (n - 1) * perPage;
      NextStart(n, perPage);
      PagesArePrefix(pager, m, perPage, n - 1);
      PageWithin(m, perPage, n);
      assert pager(n) == PageOf(m, perPage, n);
      NextSlice(m, start, start + perPage);
    }
  }

  lemma TimesMonotone(a: int, b: int, c: nat)
    requires a <= b
    ensures a * c <= b * c
  {
  }

  lemma PageTellsTotal(pager: Pager, m: seq<Row>, perPage: int, pages: int, k: int)
    requires 1 <= perPage <= 100 && Fits(m) && PagesList(pager, m, perPage)
    requires (pages - 1) * perPage < |m| && 1 <= k <= pages
    ensures PageTells(pager(k), |m|, perPage, k)
  {
    TimesMonotone(k - 1, pages - 1, perPage);
    PageWithin(m, perPage, k);
    assert pager(k) == PageOf(m, perPage, k);
  }

  lemma ListTiles(pager: Pager, m: seq<Row>, perPage: int)
    requires 1 <= perPage <= 100 && Fits(m) && PagesList(pager, m, perPage)
    ensures Tiles(pager, m, perPage)
  {
    TotalPagesCovers(|m|, perPage);
    var pages := TotalPages(|m|, perPage);
    PagesArePrefix(pager, m, perPage, pages);
    forall k | 1 <= k <= pages ensures PageTells(pager(k), |m|, perPage, k) {
      PageTellsTotal(pager, m, perPage, pages, k);
    }
  }

  /** For every filter the handler can build and the database accepts, pages 1 to TotalPages, read from
      one snapshot, tile the matching rows. */
  lemma PagesTile(f: SearchFilter, rows: seq<Row>, engine: Engine)
    requires 1 <= f.perPage <= 100 && f.salaryMin <= MAX_INTEGER && Fits(Matching(f, rows, engine))
    ensures Tiles(PagerOf(f, rows, engine), Matching(f, rows, engine), f.perPage)
  {
    PagerPagesList(f, rows, engine);
    ListTiles(PagerOf(f, rows, engine), Matching(f, rows, engine), f.perPage);
  }

  /** What a wrapped offset shows. */
  ghost predicate ShowsFrom(r: Answer<SearchResult>, m: seq<Row>, offset: int) {
    && (offset <= MAX_INT64 ==> r.Ok? && r.value.jobs == [])
    && (r.DbError? <==> Wrap64(offset) < 0)
    && (JobsOf(r) != [] <==> offset > MAX_INT64 && 0 <= Wrap64(offset) < |m|)
  }

  lemma PageOfLater(m: seq<Row>, perPage: int, k: int, offset: int)
    requires k >= 1 && offset == (k - 1) * LimitOf(perPage) && Fits(m) && |m| <= offset
    ensures ShowsFrom(PageOf(m, perPage, k), m, offset)
  {
    assert OffsetOf(k, perPage) == Wrap64(offset);
  }

  /** A page past the last one is empty while its offset fits an int64. Beyond that the offset wraps: the
      page is an error when it wraps to a negative number, and shows rows again exactly when it wraps
      to a position inside the result. */
  lemma LaterPages(f: SearchFilter, rows: seq<Row>, engine: Engine, k: int)
    requires 1 <= f.perPage <= 100 && f.salaryMin <= MAX_INTEGER && Fits(Matching(f, rows, engine))
    requires TotalPages(|Matching(f, rows, engine)|, f.perPage) < k <= MAX_INT64
    ensures ShowsFrom(PageAt(f, rows, engine, k), Matching(f, rows, engine), (k - 1) * f.perPage)
  {
    var m := Matching(f, rows, engine);
    PageAtIsPageOf(f, rows, engine, k);
    TotalPagesCovers(|m|, f.perPage);
    TimesMonotone(TotalPages(|m|, f.perPage), k - 1, f.perPage);
    PageOfLater(m, f.perPage, k, (k - 1) * f.perPage);
  }

  lemma WrappedOffset(m: seq<Row>)
    requires m != []
    ensures JobsOf(PageOf(m, 64, 0x400_0000_0000_0001)) == JobsOf(PageOf(m, 64, 1)) != []
  {
    assert OffsetOf(0x400_0000_0000_0001, 64) == 0 == OffsetOf(1, 64);
  }

  /** Such a page exists: with 64 rows to a page, page 2^58 + 1 shows page 1 again. */
  lemma WrappedPageRepeatsFirst(f: SearchFilter, rows: seq<Row>, engine: Engine)
    requires f.perPage == 64 && f.salaryMin <= MAX_INTEGER && Matching(f, rows, engine) != []
    ensures JobsOf(PageAt(f, rows, engine, 0x400_0000_0000_0001)) == JobsOf(PageAt(f, rows, engine, 1)) != []
  {
    PageAtIsPageOf(f, rows, engine, 1);
    PageAtIsPageOf(f, rows, engine, 0x400_0000_0000_0001);
    WrappedOffset(Matching(f, rows, engine));
  }

  // ---- The bounds on per_page are exactly what tiling needs ----

  /** A request without criteria. */
  function Browse(perPage: int): SearchFilter {
    SearchFilter("", "", "", None, 0, None, 1, perPage, "")
  }

  ghost predicate SelectsAll(f: SearchFilter, engine: Engine) {
    forall row :: Selects(f, row, engine)
  }

  lemma {:induction false} BrowseMatchesAll(f: SearchFilter, rows: seq<Row>, engine: Engine)
    requires SelectsAll(f, engine)
    ensures Matching(f, rows, engine) == rows
  {
    if rows != [] {
      var front, last := Front(rows), Last(rows);
      BrowseMatchesAll(f, front, engine);
      assert front + [last] == rows;
      assert Selects(f, last, engine);
      assert Matching(f, rows, engine) == front + [last];
    }
  }

  /** The service passes any per_page to a repository that clamps it, but counts pages by the one it was
      given: the pages tile every table if and only if per_page is between 1 and 100. */
  lemma TilingNeedsBounds(perPage: int, engine: Engine)
    requires IsInt64(perPage)
    ensures (forall rows :: Fits(rows) ==> Tiles(PagerOf(Browse(perPage), rows, engine), rows, perPage)) <==> 1 <= perPage <= 100
  {
    var f := Browse(perPage);
    assert SelectsAll(f, engine);
    if 1 <= perPage <= 100 {
      forall rows | Fits(rows) ensures Tiles(PagerOf(f, rows, engine), rows, perPage) {
        BrowseMatchesAll(f, rows, engine);
        PagesTile(f, rows, engine);
      }
    } else {
      var row: Row :| true;
      var rows := seq(101, i => row);
      BrowseMatchesAll(f, rows, engine);
      PagerPagesList(f, rows, engine);
      OutOfBoundsMisses(PagerOf(f, rows, engine), rows, perPage);
      assert Fits(rows);
    }
  }

  lemma OutOfBoundsMisses(pager: Pager, m: seq<Row>, perPage: int)
    requires IsInt64(perPage) && (perPage < 1 || perPage > 100) && |m| == 101 && PagesList(pager, m, perPage)
    ensures !Tiles(pager, m, perPage)
  {
    assert pager(1) == PageOf(m, perPage, 1);
    assert ReadPages(pager, 0) == [];
    assert |ReadPages(pager, 1)| <= 100;
    FewPages(perPage);
  }

  lemma FewPages(perPage: int)
    requires IsInt64(perPage) && (perPage < 1 || perPage > 100)
    ensures TotalPages(101, perPage) <= 1
  {
    if perPage > 100 && perPage + 100 <= MAX_INT64 {
      assert (perPage + 100) / perPage < 2;
    }
  }
}
