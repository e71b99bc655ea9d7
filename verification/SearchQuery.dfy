/** internal/domain/search.go: the filter that searching, alerting and caching share. */
module Filters {
  import opened Prelude

  // A Go slice: None is nil.
  type Slice = Option<seq<string>>

  function Items(s: Slice): seq<string> {
    if s.None? then [] else s.value
  }

  datatype SearchFilter = SearchFilter(
    query: string, location: string, remote: string, tags: Slice, salaryMin: int, sources: Slice,
    page: int, perPage: int, sort: string)
}

/** The part of SQL that the search builds: conditions over numbered parameters, with NULLs. */
module Sql {
  import opened Prelude
  import opened Jobs

  datatype Value = Text(text: string) | Number(n: int) | TextArray(items: seq<string>)

  datatype Condition =
    | FullText(at: nat)       // (to_tsvector('german', title || ' ' || COALESCE(description,'')) @@ plainto_tsquery('german', $at))
    | CityLike(at: nat)       // location_city ILIKE $at
    | RemoteIs(at: nat)       // remote_type = $at
    | SalaryAtLeast(at: nat)  // salary_min >= $at
    | SourceIn(ats: seq<nat>) // source IN ($..,$..)
    | TagsContain(at: nat)    // tags @> $at

  datatype Truth = True | False | Null

  /** Postgres's text search and pattern matching. */
  datatype Engine = Engine(fullText: (string, string) -> bool, ilike: (string, string) -> bool)

  datatype Answer<T> = Ok(value: T) | DbError

  function Placeholders(c: Condition): seq<nat> {
    if c.SourceIn? then c.ats else [c.at]
  }

  /** The placeholders of the first n conditions, in the order in which they are written. */
  function AllPlaceholders(conditions: seq<Condition>, n: nat): seq<nat>
    requires n <= |conditions|
  {
    if n == 0 then [] else AllPlaceholders(conditions, n - 1) + Placeholders(conditions[n - 1])
  }

  predicate IsText(args: seq<Value>, k: nat) {
    1 <= k <= |args| && args[k - 1].Text?
  }

  /** Each parameter exists and can be read as the type its place calls for; salary_min is INTEGER. */
  predicate Binds(c: Condition, args: seq<Value>) {
    match c
    case SourceIn(ats) => ats != [] && forall k :: k in ats ==> IsText(args, k)
    case SalaryAtLeast(k) => 1 <= k <= |args| && args[k - 1].Number? && -MAX_INTEGER - 1 <= args[k - 1].n <= MAX_INTEGER
    case TagsContain(k) => 1 <= k <= |args| && args[k - 1].TextArray?
    case _ => IsText(args, c.at)
  }

  predicate AllBind(conditions: seq<Condition>, args: seq<Value>) {
    forall c :: c in conditions ==> Binds(c, args)
  }

  function Document(row: Row): string {
    row.facts.title + " " + if row.facts.description.Some? then row.facts.description.value else ""
  }

  function Known(b: bool): Truth {
    if b then True else False
  }

  function Eval(c: Condition, args: seq<Value>, row: Row, engine: Engine): Truth
    requires Binds(c, args)
  {
    match c
    case FullText(k) => Known(engine.fullText(Document(row), args[k - 1].text))
    case CityLike(k) => if row.facts.city.None? then Null else Known(engine.ilike(row.facts.city.value, args[k - 1].text))
    case RemoteIs(k) => Known(row.facts.remote == args[k - 1].text)
    case SalaryAtLeast(k) => if row.facts.salaryMin.None? then Null else Known(row.facts.salaryMin.value >= args[k - 1].n)
    case SourceIn(ats) => Known(exists k :: k in ats && row.facts.source == args[k - 1].text)
    case TagsContain(k) => Known(forall t :: t in args[k - 1].items ==> t in row.facts.tags)
  }

  function And(a: Truth, b: Truth): Truth {
    if a == False || b == False then False else if a == Null || b == Null then Null else True
  }

  /** The first n conditions joined by AND; no WHERE clause when there are none. */
  function Where(conditions: seq<Condition>, n: nat, args: seq<Value>, row: Row, engine: Engine): Truth
    requires n <= |conditions| && AllBind(conditions, args)
  {
    if n == 0 then True
    else And(Where(conditions, n - 1, args, row, engine), Eval(conditions[n - 1], args, row, engine))
  }

  /** The rows for which the WHERE clause is true; a row for which it is NULL is left out. */
  function Selected(conditions: seq<Condition>, args: seq<Value>, rows: seq<Row>, engine: Engine): seq<Row>
    requires AllBind(conditions, args)
  {
    if rows == [] then []
    else Selected(conditions, args, Front(rows), engine)
         + if Where(conditions, |conditions|, args, Last(rows), engine) == True then [Last(rows)] else []
  }

  /** A statement is refused unless its placeholders name exactly the parameters sent with it. */
  predicate Prepares(conditions: seq<Condition>, args: seq<Value>, tail: seq<nat>) {
    && AllBind(conditions, args)
    && forall k :: 1 <= k <= |args| ==> k in AllPlaceholders(conditions, |conditions|) + tail
  }

  function CountQuery(conditions: seq<Condition>, args: seq<Value>, rows: seq<Row>, engine: Engine): Answer<nat> {
    if Prepares(conditions, args, []) then Ok(|Selected(conditions, args, rows, engine)|) else DbError
  }

  function Cut(rows: seq<Row>, limit: nat, offset: nat): seq<Row> {
    if offset >= |rows| then [] else if offset + limit >= |rows| then rows[offset..] else rows[offset..offset + limit]
  }

  /** `table` gives the rows in the order that an ORDER BY clause asks for. */
  function DataQuery(conditions: seq<Condition>, orderBy: string, limitAt: nat, offsetAt: nat, args: seq<Value>,
                           table: string -> seq<Row>, engine: Engine): Answer<seq<Row>> {
    if Prepares(conditions, args, [limitAt, offsetAt]) && IsCount(args, limitAt) && IsCount(args, offsetAt)
    then Ok(Cut(Selected(conditions, args, table(orderBy), engine), args[limitAt - 1].n, args[offsetAt - 1].n))
    else DbError
  }

  predicate IsCount(args: seq<Value>, k: nat) {
    1 <= k <= |args| && args[k - 1].Number? && 0 <= args[k - 1].n <= MAX_INT64
  }

  lemma EvalIgnoresLaterArgs(c: Condition, args: seq<Value>, more: seq<Value>, row: Row, engine: Engine)
    requires Binds(c, args)
    ensures Binds(c, args + more) && Eval(c, args + more, row, engine) == Eval(c, args, row, engine)
  {
  }

  lemma {:induction false} WhereIgnoresLater(conditions: seq<Condition>, later: seq<Condition>, n: nat,
                                             args: seq<Value>, more: seq<Value>, row: Row, engine: Engine)
    requires n <= |conditions| && AllBind(conditions, args) && AllBind(conditions + later, args + more)
    ensures Where(conditions + later, n, args + more, row, engine) == Where(conditions, n, args, row, engine)
  {
    if n > 0 {
      WhereIgnoresLater(conditions, later, n - 1, args, more, row, engine);
      EvalIgnoresLaterArgs(conditions[n - 1], args, more, row, engine);
    }
  }

  lemma {:induction false} PlaceholdersOfPrefix(conditions: seq<Condition>, later: seq<Condition>, n: nat)
    requires n <= |conditions|
    ensures AllPlaceholders(conditions + later, n) == AllPlaceholders(conditions, n)
  {
    if n > 0 {
      PlaceholdersOfPrefix(conditions, later, n - 1);
    }
  }

  lemma BindsWithLater(conditions: seq<Condition>, args: seq<Value>, more: seq<Value>)
    requires AllBind(conditions, args)
    ensures AllBind(conditions, args + more)
  {
  }
}

/** internal/repository/postgres/job_repo.go, Search. */
module SearchQuery {
  import opened Prelude
  import opened Jobs
  import opened Filters
  import opened Sql
  import Strings

  datatype Clause = Clause(conditions: seq<Condition>, args: seq<Value>)

  // ---- What the filter means ----

  /** A job matches when it meets every field of the filter that is not zero; an absent city or
      salary meets none. The query is searched in the title and the description, if there is one. */
  predicate Selects(f: SearchFilter, row: Row, engine: Engine) {
    && (f.query != "" ==>
          engine.fullText(match row.facts.description
                          case Some(description) => row.facts.title + " " + description
                          case None => row.facts.title + " ", f.query))
    && (f.location != "" ==> row.facts.city.Some? && engine.ilike(row.facts.city.value, "%" + f.location + "%"))
    && (f.remote != "" ==> row.facts.remote == f.remote)
    && (f.salaryMin > 0 ==> row.facts.salaryMin.Some? && row.facts.salaryMin.value >= f.salaryMin)
    && (Items(f.sources) != [] ==> row.facts.source in Items(f.sources))
    && (forall t :: t in Items(f.tags) ==> t in row.facts.tags)
  }

  function Matching(f: SearchFilter, rows: seq<Row>, engine: Engine): seq<Row> {
    if rows == [] then []
    else Matching(f, Front(rows), engine) + if Selects(f, Last(rows), engine) then [Last(rows)] else []
  }

  // ---- The compiler ----

  function Numbers(from: nat, n: nat): seq<nat> {
    seq(n, i => from + i)
  }

  function Texts(items: seq<string>): (r: seq<Value>)
    ensures |r| == |items|
  {
    seq(|items|, i requires 0 <= i < |items| => Text(items[i]))
  }

  function Added(c: Clause, condition: nat -> Condition, value: Value): Clause {
    Clause(c.conditions + [condition(|c.args| + 1)], c.args + [value])
  }

  function AddedSources(c: Clause, sources: seq<string>): Clause {
    Clause(c.conditions + [SourceIn(Numbers(|c.args| + 1, |sources|))], c.args + Texts(sources))
  }

  /** The accumulating variables of Search and its addArg closure. */
  class QueryBuilder {
    var conditions: seq<Condition>
    var args: seq<Value>
    var argIdx: nat

    constructor ()
      ensures Valid() && Built() == Clause([], [])
    {
      conditions, args, argIdx := [], [], 1;
    }

    predicate Valid()
      reads this
    {
      argIdx == |args| + 1
    }

    function Built(): Clause
      reads this
    {
      Clause(conditions, args)
    }

    method AddArg(condition: nat -> Condition, value: Value)
      requires Valid()
      modifies this
      ensures Valid() && Built() == Added(old(Built()), condition, value)
    {
      conditions := conditions + [condition(argIdx)];
      args := args + [value];
      argIdx := argIdx + 1;
    }

    method AddSources(sources: seq<string>)
      requires Valid()
      modifies this
      ensures Valid() && Built() == AddedSources(old(Built()), sources)
    {
      var placeholders: seq<nat> := [];
      for i := 0 to |sources|
        invariant Valid() && argIdx == old(argIdx) + i && conditions == old(conditions)
        invariant placeholders == Numbers(old(argIdx), i)
        invariant args == old(args) + Texts(sources[..i])
      {
        placeholders := placeholders + [argIdx];
        args := args + [Text(sources[i])];
        argIdx := argIdx + 1;
        assert Texts(sources[..i + 1]) == Texts(sources[..i]) + [Text(sources[i])];
      }
      assert sources[..|sources|] == sources;
      conditions := conditions + [SourceIn(placeholders)];
    }

    method AddFilter(f: SearchFilter)
      requires Valid() && Built() == Clause([], [])
      modifies this
      ensures Compiles(f)
    {
      if f.query != "" {
        AddArg((k: nat) => FullText(k), Text(f.query));
      }
      if f.location != "" {
        AddArg((k: nat) => CityLike(k), Text("%" + f.location + "%"));
      }
      if f.remote != "" {
        AddArg((k: nat) => RemoteIs(k), Text(f.remote));
      }
      if f.salaryMin > 0 {
        AddArg((k: nat) => SalaryAtLeast(k), Number(f.salaryMin));
      }
      if |Items(f.sources)| > 0 {
        AddSources(Items(f.sources));
      }
      if |Items(f.tags)| > 0 {
        AddArg((k: nat) => TagsContain(k), TextArray(Items(f.tags)));
      }
    }

    ghost predicate Compiles(f: SearchFilter)
      reads this
    {
      Valid() && Built() == Compiled(f)
    }

    method Count(ghost f: SearchFilter, rows: seq<Row>, engine: Engine) returns (r: Answer<nat>)
      requires Compiles(f)
      ensures r == if f.salaryMin <= MAX_INTEGER then Ok(|Matching(f, rows, engine)|) else DbError
    {
      CountIsMatching(f, rows, engine);
      r := CountQuery(conditions, args, rows, engine);
    }

    method Page(ghost f: SearchFilter, orderBy: string, limit: int, offset: int, table: string -> seq<Row>, engine: Engine)
      returns (r: Answer<seq<Row>>)
      requires Compiles(f) && f.salaryMin <= MAX_INTEGER && 0 <= limit <= MAX_INT64 && offset <= MAX_INT64
      ensures r == if offset >= 0 then Ok(Cut(Matching(f, table(orderBy), engine), limit, offset)) else DbError
    {
      PageIsMatching(f, limit, offset, orderBy, table, engine);
      r := DataQuery(conditions, orderBy, argIdx, argIdx + 1,
                     args + [Number(limit), Number(offset)], table, engine);
    }
  }

  function WithText(c: Clause, text: string, condition: nat -> Condition, value: string): Clause {
    if text != "" then Added(c, condition, Text(value)) else c
  }

  function TextPart(f: SearchFilter): Clause {
    var c1 := WithText(Clause([], []), f.query, (k: nat) => FullText(k), f.query);
    var c2 := WithText(c1, f.location, (k: nat) => CityLike(k), "%" + f.location + "%");
    WithText(c2, f.remote, (k: nat) => RemoteIs(k), f.remote)
  }

  function Compiled(f: SearchFilter): Clause {
    var c3 := TextPart(f);
    var c4 := if f.salaryMin > 0 then Added(c3, (k: nat) => SalaryAtLeast(k), Number(f.salaryMin)) else c3;
    var c5 := if |Items(f.sources)| > 0 then AddedSources(c4, Items(f.sources)) else c4;
    if |Items(f.tags)| > 0 then Added(c5, (k: nat) => TagsContain(k), TextArray(Items(f.tags))) else c5
  }

  // ---- The compiled clause means the filter ----

  /** The clause's placeholders are $1, $2, ... in the order written, each once; every parameter fits
      its place; and the clause is true of the row exactly when `test` is. */
  ghost predicate Means(c: Clause, row: Row, engine: Engine, test: bool) {
    && AllBind(c.conditions, c.args)
    && AllPlaceholders(c.conditions, |c.conditions|) == Numbers(1, |c.args|)
    && (Where(c.conditions, |c.conditions|, c.args, row, engine) == True <==> test)
  }

  lemma NumbersAppend(n: nat, m: nat)
    ensures Numbers(1, n + m) == Numbers(1, n) + Numbers(n + 1, m)
  {
  }

  /** One more condition over fresh parameters. */
  lemma ExtendedMeans(c: Clause, condition: Condition, more: seq<Value>, row: Row, engine: Engine, test: bool, extra: bool)
    requires Means(c, row, engine, test)
    requires Placeholders(condition) == Numbers(|c.args| + 1, |more|)
    requires Binds(condition, c.args + more) && (Eval(condition, c.args + more, row, engine) == True <==> extra)
    ensures Means(Clause(c.conditions + [condition], c.args + more), row, engine, test && extra)
  {
    var conditions, args, n := c.conditions + [condition], c.args + more, |c.conditions|;
    BindsWithLater(c.conditions, c.args, more);
    WhereIgnoresLater(c.conditions, [condition], n, c.args, more, row, engine);
    PlaceholdersOfPrefix(c.conditions, [condition], n);
    assert conditions[n] == condition;
    NumbersAppend(|c.args|, |more|);
  }

  lemma TextMeans(c: Clause, text: string, condition: nat -> Condition, value: string, row: Row, engine: Engine,
          test: bool, extra: bool)
    requires Means(c, row, engine, test)
    requires var k, args := |c.args| + 1, c.args + [Text(value)];
             && Placeholders(condition(k)) == [k] && Binds(condition(k), args)
             && (Eval(condition(k), args, row, engine) == True <==> extra)
    ensures Means(WithText(c, text, condition, value), row, engine, test && (text != "" ==> extra))
  {
    if text != "" {
      assert Numbers(|c.args| + 1, 1) == [|c.args| + 1];
      ExtendedMeans(c, condition(|c.args| + 1), [Text(value)], row, engine, test, extra);
    }
  }

  predicate TextTest(f: SearchFilter, row: Row, engine: Engine) {
    && (f.query != "" ==> engine.fullText(Document(row), f.query))
    && (f.location != "" ==> row.facts.city.Some? && engine.ilike(row.facts.city.value, "%" + f.location + "%"))
    && (f.remote != "" ==> row.facts.remote == f.remote)
  }

  lemma TextPartMeans(f: SearchFilter, row: Row, engine: Engine)
    ensures Means(TextPart(f), row, engine, TextTest(f, row, engine))
  {
    var c0, like := Clause([], []), "%" + f.location + "%";
    assert Numbers(1, 0) == [];
    var byQuery := engine.fullText(Document(row), f.query);
    TextMeans(c0, f.query, (k: nat) => FullText(k), f.query, row, engine, true, byQuery);
    var c1 := WithText(c0, f.query, (k: nat) => FullText(k), f.query);
    var byCity := row.facts.city.Some? && engine.ilike(row.facts.city.value, like);
    TextMeans(c1, f.location, (k: nat) => CityLike(k), like, row, engine, f.query != "" ==> byQuery, byCity);
    var c2 := WithText(c1, f.location, (k: nat) => CityLike(k), like);
    TextMeans(c2, f.remote, (k: nat) => RemoteIs(k), f.remote, row, engine,
              (f.query != "" ==> byQuery) && (f.location != "" ==> byCity), row.facts.remote == f.remote);
  }

  lemma SalaryMeans(c: Clause, salaryMin: int, row: Row, engine: Engine, test: bool)
    requires Means(c, row, engine, test) && 0 < salaryMin <= MAX_INTEGER
    ensures Means(Added(c, (k: nat) => SalaryAtLeast(k), Number(salaryMin)), row, engine,
                  test && row.facts.salaryMin.Some? && row.facts.salaryMin.value >= salaryMin)
  {
    assert Numbers(|c.args| + 1, 1) == [|c.args| + 1];
    ExtendedMeans(c, SalaryAtLeast(|c.args| + 1), [Number(salaryMin)], row, engine, test,
                  row.facts.salaryMin.Some? && row.facts.salaryMin.value >= salaryMin);
  }

  lemma SourceInMeans(args: seq<Value>, sources: seq<string>, row: Row, engine: Engine)
    requires sources != []
    ensures var c, all := SourceIn(Numbers(|args| + 1, |sources|)), args + Texts(sources);
            Binds(c, all) && (Eval(c, all, row, engine) == True <==> row.facts.source in sources)
  {
    var ats, all := Numbers(|args| + 1, |sources|), args + Texts(sources);
    assert |ats| == |sources|;
    forall k | k in ats ensures IsText(all, k) && all[k - 1].text == sources[k - 1 - |args|] {
    }
    if row.facts.source in sources {
      var i :| 0 <= i < |sources| && sources[i] == row.facts.source;
      assert ats[i] == |args| + 1 + i && ats[i] in ats;
    }
  }

  lemma SourcesMean(c: Clause, sources: seq<string>, row: Row, engine: Engine, test: bool)
    requires Means(c, row, engine, test) && sources != []
    ensures Means(AddedSources(c, sources), row, engine, test && row.facts.source in sources)
  {
    var ats, args := Numbers(|c.args| + 1, |sources|), c.args + Texts(sources);
    SourceInMeans(c.args, sources, row, engine);
    ExtendedMeans(c, SourceIn(ats), Texts(sources), row, engine, test, row.facts.source in sources);
  }

  lemma TagsMean(c: Clause, tags: seq<string>, row: Row, engine: Engine, test: bool)
    requires Means(c, row, engine, test)
    ensures Means(Added(c, (k: nat) => TagsContain(k), TextArray(tags)), row, engine,
                  test && forall t :: t in tags ==> t in row.facts.tags)
  {
    assert Numbers(|c.args| + 1, 1) == [|c.args| + 1];
    ExtendedMeans(c, TagsContain(|c.args| + 1), [TextArray(tags)], row, engine, test,
                  forall t :: t in tags ==> t in row.facts.tags);
  }

  lemma DocumentIsSearched(row: Row)
    ensures Document(row) == match row.facts.description
                             case Some(description) => row.facts.title + " " + description
                             case None => row.facts.title + " "
  {
    assert row.facts.title + " " + "" == row.facts.title + " ";
  }

  /** Query compilation preserves meaning, for every filter whose salary is an INTEGER. */
  lemma CompiledMeansFilter(f: SearchFilter, row: Row, engine: Engine)
    requires f.salaryMin <= MAX_INTEGER
    ensures Means(Compiled(f), row, engine, Selects(f, row, engine))
  {
    DocumentIsSearched(row);
    TextPartMeans(f, row, engine);
    var c3, test3 := TextPart(f), TextTest(f, row, engine);
    if f.salaryMin > 0 {
      SalaryMeans(c3, f.salaryMin, row, engine, test3);
    }
    var c4 := if f.salaryMin > 0 then Added(c3, (k: nat) => SalaryAtLeast(k), Number(f.salaryMin)) else c3;
    var test4 := test3 && (f.salaryMin > 0 ==> row.facts.salaryMin.Some? && row.facts.salaryMin.value >= f.salaryMin);
    if |Items(f.sources)| > 0 {
      SourcesMean(c4, Items(f.sources), row, engine, test4);
    }
    var c5 := if |Items(f.sources)| > 0 then AddedSources(c4, Items(f.sources)) else c4;
    var test5 := test4 && (Items(f.sources) != [] ==> row.facts.source in Items(f.sources));
    if |Items(f.tags)| > 0 {
      TagsMean(c5, Items(f.tags), row, engine, test5);
    }
  }

  /** A minimum salary beyond INTEGER, which the handler lets through, makes the statement fail. */
  lemma HugeSalaryFails(f: SearchFilter)
    requires f.salaryMin > MAX_INTEGER
    ensures !AllBind(Compiled(f).conditions, Compiled(f).args)
  {
    var c3 := TextPart(f);
    var condition := SalaryAtLeast(|c3.args| + 1);
    assert condition in (c3.conditions + [condition]);
    assert condition in Compiled(f).conditions;
    assert Compiled(f).args[|c3.args|] == Number(f.salaryMin);
  }

  lemma {:induction false} SelectedIsMatching(f: SearchFilter, more: seq<Value>, rows: seq<Row>, engine: Engine)
    requires f.salaryMin <= MAX_INTEGER && AllBind(Compiled(f).conditions, Compiled(f).args + more)
    ensures Selected(Compiled(f).conditions, Compiled(f).args + more, rows, engine) == Matching(f, rows, engine)
  {
    if rows != [] {
      var c, row := Compiled(f), Last(rows);
      SelectedIsMatching(f, more, Front(rows), engine);
      CompiledMeansFilter(f, row, engine);
      WhereIgnoresLater(c.conditions, [], |c.conditions|, c.args, more, row, engine);
      assert c.conditions + [] == c.conditions;
    }
  }

  // ---- ORDER BY ----

  predicate IsColumn(s: string) {
    s == "published_at" || s == "created_at" || s == "salary_min" || s == "title"
  }

  function ToUpper(s: string, up: char -> char): string {
    seq(|s|, i requires 0 <= i < |s| => up(s[i]))
  }

  function OrderBy(sort: string, up: char -> char): string {
    var n := Strings.Before(sort, ':');
    if !IsColumn(sort[..n]) then "published_at DESC"
    else sort[..n] + " " + if n < |sort| && ToUpper(sort[n + 1..], up) == "ASC" then "ASC" else "DESC"
  }

  predicate IsDirection(s: string) {
    s == "ASC" || s == "DESC"
  }

  predicate IsOrder(clause: string, column: string, direction: string) {
    IsColumn(column) && IsDirection(direction) && clause == column + " " + direction
  }

  /** Whatever the caller asks for, the clause is a listed column and a direction. */
  lemma OrderByIsListed(sort: string, up: char -> char)
    ensures exists column, direction :: IsOrder(OrderBy(sort, up), column, direction)
  {
    var n := Strings.Before(sort, ':');
    if IsColumn(sort[..n]) {
      var direction := if n < |sort| && ToUpper(sort[n + 1..], up) == "ASC" then "ASC" else "DESC";
      assert IsOrder(OrderBy(sort, up), sort[..n], direction);
    } else {
      assert "published_at" + " " + "DESC" == "published_at DESC";
      assert IsOrder(OrderBy(sort, up), "published_at", "DESC");
    }
  }

  /** The text upper-cases to ASC, character by character. */
  predicate AsksAscending(direction: string, up: char -> char) {
    |direction| == 3 && up(direction[0]) == 'A' && up(direction[1]) == 'S' && up(direction[2]) == 'C'
  }

  /** The whole rule, for every sort text: what is before its first colon is one of the four columns, and
      then the order is by that column, ascending exactly when what is after the colon upper-cases to
      ASC; or it is none of them, as in an empty text, and the newest come first. */
  lemma OrderByRule(column: string, direction: string, up: char -> char)
    requires ':' !in column
    ensures var listed := column in {"published_at", "created_at", "salary_min", "title"};
            && OrderBy(column, up) == (if listed then column + " DESC" else "published_at DESC")
            && OrderBy(column + ":" + direction, up)
               == (if !listed then "published_at DESC"
                   else if AsksAscending(direction, up) then column + " ASC" else column + " DESC")
  {
    var sort := column + ":" + direction;
    var upper := ToUpper(direction, up);
    assert AsksAscending(direction, up) ==> upper == "ASC";
    assert upper == "ASC" ==> upper[0] == 'A' && upper[1] == 'S' && upper[2] == 'C';
    assert column + " " + "ASC" == column + " ASC" && column + " " + "DESC" == column + " DESC";
    assert column[..|column|] == column;
    Strings.BeforeIs(column, ':', |column|);
    assert sort[..|column|] == column && sort[|column| + 1..] == direction;
    Strings.BeforeIs(sort, ':', |column|);
  }

  // ---- Search ----

  function LimitOf(perPage: int): (limit: int)
    ensures 1 <= limit <= 100
  {
    if perPage < 1 then 25 else if perPage > 100 then 100 else perPage
  }

  function OffsetOf(page: int, perPage: int): int {
    Wrap64(((if page < 1 then 1 else page) - 1) * LimitOf(perPage))
  }

  /** What a search returns: the page of the matching rows and their number, or an error when Postgres
      refuses the salary or the offset. The count and the page are read by two statements, so from two
      states of the table. */
  function SearchAnswer(f: SearchFilter, up: char -> char, counted: seq<Row>, table: string -> seq<Row>,
          engine: Engine): Answer<(seq<Row>, nat)> {
    var offset := OffsetOf(f.page, f.perPage);
    if f.salaryMin > MAX_INTEGER || offset < 0 then DbError
    else Ok((Cut(Matching(f, table(OrderBy(f.sort, up)), engine), LimitOf(f.perPage), offset), |Matching(f, counted, engine)|))
  }

  /** The rows that a request without a sort, or with one that is not listed, and without a page shows:
      the first of the newest, 25 unless it asks for some number up to 100. */
  lemma FirstPageIsNewest(f: SearchFilter, up: char -> char, counted: seq<Row>, table: string -> seq<Row>, engine: Engine)
    requires f.page <= 1 && f.salaryMin <= MAX_INTEGER
    requires ':' !in f.sort && f.sort !in {"published_at", "created_at", "salary_min", "title"}
    ensures var r, newest := SearchAnswer(f, up, counted, table, engine), Matching(f, table("published_at DESC"), engine);
            var n: nat := if f.perPage < 1 then 25 else if f.perPage < 100 then f.perPage else 100;
            r == Ok((if n < |newest| then newest[..n] else newest, |Matching(f, counted, engine)|))
  {
    OrderByRule(f.sort, "", up);
  }

  lemma CompiledPrepares(f: SearchFilter)
    requires f.salaryMin <= MAX_INTEGER
    ensures Prepares(Compiled(f).conditions, Compiled(f).args, [])
  {
    var c := Compiled(f);
    var row: Row :| true;
    CompiledMeansFilter(f, row, Engine((x, y) => true, (x, y) => true));
    forall k | 1 <= k <= |c.args| ensures k in AllPlaceholders(c.conditions, |c.conditions|) {
      assert AllPlaceholders(c.conditions, |c.conditions|)[k - 1] == k;
    }
  }

  function CountStatement(c: Clause, rows: seq<Row>, engine: Engine): Answer<nat> {
    CountQuery(c.conditions, c.args, rows, engine)
  }

  /** The count statement counts the matching rows. */
  lemma CountIsMatching(f: SearchFilter, rows: seq<Row>, engine: Engine)
    ensures CountStatement(Compiled(f), rows, engine)
         == if f.salaryMin <= MAX_INTEGER then Ok(|Matching(f, rows, engine)|) else DbError
  {
    if f.salaryMin <= MAX_INTEGER {
      CompiledPrepares(f);
      assert Compiled(f).args + [] == Compiled(f).args;
      SelectedIsMatching(f, [], rows, engine);
    } else {
      HugeSalaryFails(f);
    }
  }

  function PageStatement(c: Clause, orderBy: string, limit: int, offset: int, table: string -> seq<Row>,
          engine: Engine): Answer<seq<Row>> {
    DataQuery(c.conditions, orderBy, |c.args| + 1, |c.args| + 2, c.args + [Number(limit), Number(offset)], table, engine)
  }

  /** The page statement, whose LIMIT and OFFSET are its last two parameters, cuts the page out of the
      matching rows. */
  lemma PageIsMatching(f: SearchFilter, limit: int, offset: int, orderBy: string, table: string -> seq<Row>, engine: Engine)
    requires f.salaryMin <= MAX_INTEGER && 0 <= limit <= MAX_INT64 && offset <= MAX_INT64
    ensures PageStatement(Compiled(f), orderBy, limit, offset, table, engine)
         == if offset >= 0 then Ok(Cut(Matching(f, table(orderBy), engine), limit, offset)) else DbError
  {
    var c := Compiled(f);
    var more := [Number(limit), Number(offset)];
    CompiledPrepares(f);
    BindsWithLater(c.conditions, c.args, more);
    var used, tail := AllPlaceholders(c.conditions, |c.conditions|), [|c.args| + 1, |c.args| + 2];
    assert used + [] == used;
    assert forall k :: 1 <= k <= |c.args + more| ==> k in used || k == tail[0] || k == tail[1];
    SelectedIsMatching(f, more, table(orderBy), engine);
  }

  method Search(f: SearchFilter, up: char -> char, counted: seq<Row>, table: string -> seq<Row>, engine: Engine)
    returns (r: Answer<(seq<Row>, nat)>)
    ensures r == SearchAnswer(f, up, counted, table, engine)
    ensures f.sort == "" && r.Ok? ==>
              r.value.0 == Cut(Matching(f, table("published_at DESC"), engine), LimitOf(f.perPage), OffsetOf(f.page, f.perPage))
  {
    OrderByRule("", "", up);
    var b := new QueryBuilder();
    b.AddFilter(f);
    var total := b.Count(f, counted, engine);
    if total.DbError? {
      return DbError;
    }
    var page := f.page;
    if page < 1 {
      page := 1;
    }
    var perPage := f.perPage;
    if perPage < 1 {
      perPage := 25;
    }
    if perPage > 100 {
      perPage := 100;
    }
    var offset := Wrap64((page - 1) * perPage);
    assert perPage == LimitOf(f.perPage) && offset == OffsetOf(f.page, f.perPage);
    var rows := b.Page(f, OrderBy(f.sort, up), perPage, offset, table, engine);
    if rows.DbError? {
      return DbError;
    }
    return Ok((rows.value, total.value));
  }
}
