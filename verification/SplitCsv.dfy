/** internal/handler/middleware/rate_limit.go: splitCSV and trim, hand-written index loops. */
module SplitCsv {
  import opened Prelude
  import opened Strings

  predicate IsPad(c: char) {
    c == ' ' || c == '\t'
  }

  predicate AllPad(s: string) {
    forall i :: 0 <= i < |s| ==> IsPad(s[i])
  }

  /** The text has no padding at either end. */
  predicate IsTrimmed(s: string) {
    s == "" || (!IsPad(s[0]) && !IsPad(Last(s)))
  }

  function DropLeft(s: string): string {
    if s != "" && IsPad(s[0]) then DropLeft(s[1..]) else s
  }

  function DropRight(s: string): string {
    if s != "" && IsPad(Last(s)) then DropRight(Front(s)) else s
  }

  function Trimmed(s: string): string {
    DropRight(DropLeft(s))
  }

  method Trim(s: string) returns (r: string)
    ensures r == Trimmed(s)
  {
    r := s;
    while |r| > 0 && (r[0] == ' ' || r[0] == '\t')
      invariant DropLeft(r) == DropLeft(s)
    {
      r := r[1..];
    }
    ghost var left := r;
    while |r| > 0 && (r[|r| - 1] == ' ' || r[|r| - 1] == '\t')
      invariant DropRight(r) == DropRight(left)
    {
      r := r[..|r| - 1];
    }
  }

  lemma {:induction false} DropLeftIs(pad: string, core: string)
    requires AllPad(pad) && (core == "" || !IsPad(core[0]))
    ensures DropLeft(pad + core) == core
  {
    if pad == "" {
      assert pad + core == core;
    } else {
      assert (pad + core)[1..] == pad[1..] + core;
      DropLeftIs(pad[1..], core);
    }
  }

  lemma {:induction false} DropRightIs(core: string, pad: string)
    requires AllPad(pad) && (core == "" || !IsPad(Last(core)))
    ensures DropRight(core + pad) == core
  {
    if pad == "" {
      assert core + pad == core;
    } else {
      assert Front(core + pad) == core + Front(pad) && Last(core + pad) == Last(pad);
      DropRightIs(core, Front(pad));
    }
  }

  lemma {:induction false} DropLeftSplits(s: string)
    ensures exists pad :: AllPad(pad) && s == pad + DropLeft(s)
    ensures DropLeft(s) == "" || !IsPad(DropLeft(s)[0])
  {
    if s != "" && IsPad(s[0]) {
      DropLeftSplits(s[1..]);
      var pad :| AllPad(pad) && s[1..] == pad + DropLeft(s[1..]);
      assert AllPad([s[0]] + pad) && s == [s[0]] + pad + DropLeft(s);
    } else {
      assert AllPad("") && s == "" + DropLeft(s);
    }
  }

  lemma {:induction false} DropRightSplits(s: string)
    ensures exists pad :: AllPad(pad) && s == DropRight(s) + pad
    ensures DropRight(s) == "" || !IsPad(Last(DropRight(s)))
  {
    if s != "" && IsPad(Last(s)) {
      DropRightSplits(Front(s));
      var pad :| AllPad(pad) && Front(s) == DropRight(Front(s)) + pad;
      assert AllPad(pad + [Last(s)]) && s == DropRight(s) + (pad + [Last(s)]);
    } else {
      assert AllPad("") && s == DropRight(s) + "";
    }
  }

  /** r is s without padding around it. */
  ghost predicate IsCore(s: string, r: string) {
    IsTrimmed(r) && exists left, right :: AllPad(left) && AllPad(right) && s == left + r + right
  }

  /** Trimming removes exactly the padding at the two ends: the result is the one trimmed text that is
      s but for padding around it. */
  lemma TrimmedIsCore(s: string, r: string)
    ensures r == Trimmed(s) <==> IsCore(s, r)
  {
    TrimmedSplits(s);
    if IsCore(s, r) {
      var a, b :| AllPad(a) && AllPad(b) && s == a + r + b;
      CoreIsTrimmed(a, r, b);
    }
  }

  lemma TrimmedSplits(s: string)
    ensures IsCore(s, Trimmed(s)) && forall c :: c in Trimmed(s) ==> c in s
  {
    DropLeftSplits(s);
    DropRightSplits(DropLeft(s));
    var left :| AllPad(left) && s == left + DropLeft(s);
    var right :| AllPad(right) && DropLeft(s) == Trimmed(s) + right;
    assert s == left + Trimmed(s) + right;
    assert Trimmed(s) != "" ==> Trimmed(s)[0] == DropLeft(s)[0];
  }

  lemma CoreIsTrimmed(left: string, r: string, right: string)
    requires AllPad(left) && AllPad(right) && IsTrimmed(r)
    ensures Trimmed(left + r + right) == r
  {
    assert left + r + right == left + (r + right);
    if r == "" {
      DropLeftIs(left + right, "");
      assert (left + right) + "" == left + r + right;
    } else {
      DropLeftIs(left, r + right);
      DropRightIs(r, right);
    }
  }

  // ---- splitCSV ----

  function TextPositions(parts: seq<string>): nat -> bool {
    (k: nat) => k < |parts| && Trimmed(parts[k]) != ""
  }

  /** The fields are the parts at those positions, trimmed. */
  ghost predicate PartsAt(fields: seq<string>, at: seq<nat>, parts: seq<string>) {
    |fields| == |at| && forall j :: 0 <= j < |at| ==> at[j] < |parts| && fields[j] == Trimmed(parts[at[j]])
  }

  /** The parts trimmed, empty ones dropped. */
  function Kept(parts: seq<string>): seq<string> {
    if parts == [] then []
    else (if Trimmed(parts[0]) != "" then [Trimmed(parts[0])] else []) + Kept(parts[1..])
  }

  /** Which parts are kept, and in what order: those with text, each in the place it has among them. */
  lemma {:induction false} KeptPositions(parts: seq<string>) returns (at: seq<nat>)
    ensures Positions(at, |parts|, TextPositions(parts)) && PartsAt(Kept(parts), at, parts)
  {
    if parts == [] {
      at := [];
    } else {
      var later := KeptPositions(parts[1..]);
      at := (if Trimmed(parts[0]) != "" then [0] else []) + Shifted(later);
      ShiftedPositions(later, parts);
    }
  }

  function Shifted(at: seq<nat>): (r: seq<nat>)
    ensures |r| == |at|
  {
    seq(|at|, i requires 0 <= i < |at| => at[i] + 1)
  }

  lemma ShiftedPositions(later: seq<nat>, parts: seq<string>)
    requires parts != [] && Positions(later, |parts| - 1, TextPositions(parts[1..]))
    ensures Positions((if Trimmed(parts[0]) != "" then [0] else []) + Shifted(later), |parts|, TextPositions(parts))
  {
    var at := (if Trimmed(parts[0]) != "" then [0] else []) + Shifted(later);
    forall k: nat ensures k in at <==> k < |parts| && TextPositions(parts)(k) {
      if k > 0 {
        assert k - 1 in later <==> k - 1 < |parts| - 1 && TextPositions(parts[1..])(k - 1);
        if k - 1 in later {
          var i :| 0 <= i < |later| && later[i] == k - 1;
          assert Shifted(later)[i] == k;
          assert k in Shifted(later);
        }
        if k in at {
          var j :| 0 <= j < |Shifted(later)| && Shifted(later)[j] == k;
          assert later[j] == k - 1;
        }
      }
    }
  }

  /** Split on commas, trim, drop empty. */
  function Fields(s: string): seq<string> {
    Kept(Split(s, ','))
  }

  lemma FieldsStep(s: string, n: nat)
    requires n < |s| && s[n] == ',' && ',' !in s[..n]
    ensures Fields(s) == (if Trimmed(s[..n]) != "" then [Trimmed(s[..n])] else []) + Fields(s[n + 1..])
  {
    BeforeIs(s, ',', n);
    assert Split(s, ',')[1..] == Split(s[n + 1..], ',');
  }

  lemma FieldsLast(s: string)
    requires ',' !in s
    ensures Fields(s) == if Trimmed(s) != "" then [Trimmed(s)] else []
  {
    assert s[..|s|] == s;
    BeforeIs(s, ',', |s|);
    assert Split(s, ',') == [s];
    assert Kept([s][1..]) == [];
  }

  function Push(parts: seq<string>, part: string): seq<string> {
    if part != "" then parts + [part] else parts
  }

  /** The text from start on, when the next comma is at i. */
  lemma FieldsFrom(parts: seq<string>, s: string, start: nat, i: nat)
    requires start <= i < |s| && s[i] == ',' && forall k :: start <= k < i ==> s[k] != ','
    ensures parts + Fields(s[start..]) == Push(parts, Trimmed(s[start..i])) + Fields(s[i + 1..])
  {
    var rest := s[start..];
    assert rest[..i - start] == s[start..i] && rest[i - start + 1..] == s[i + 1..];
    FieldsStep(rest, i - start);
    var field := if Trimmed(s[start..i]) != "" then [Trimmed(s[start..i])] else [];
    assert parts + (field + Fields(s[i + 1..])) == (parts + field) + Fields(s[i + 1..]);
    assert parts + [] == parts;
  }

  lemma FieldsToEnd(parts: seq<string>, s: string, start: nat)
    requires start <= |s| && forall k :: start <= k < |s| ==> s[k] != ','
    ensures parts + Fields(s[start..]) == Push(parts, Trimmed(s[start..]))
  {
    FieldsLast(s[start..]);
  }

  method SplitCSV(s: string) returns (parts: seq<string>)
    ensures parts == Fields(s)
  {
    parts := [];
    var start := 0;
    assert s[0..] == s && [] + Fields(s) == Fields(s);
    for i := 0 to |s|
      invariant start <= i && forall k :: start <= k < i ==> s[k] != ','
      invariant Fields(s) == parts + Fields(s[start..])
    {
      if s[i] == ',' {
        FieldsFrom(parts, s, start, i);
        var part := Trim(s[start..i]);
        if part != "" {
          parts := parts + [part];
        }
        start := i + 1;
      }
    }
    FieldsToEnd(parts, s, start);
    var part := Trim(s[start..]);
    if part != "" {
      parts := parts + [part];
    }
  }

  /** What every entry of the result is. */
  predicate IsField(part: string) {
    part != "" && IsTrimmed(part) && ',' !in part
  }

  lemma {:induction false} SplitHasNoCommas(s: string)
    ensures forall part :: part in Split(s, ',') ==> ',' !in part
    decreases |s|
  {
    var n := Before(s, ',');
    if n < |s| {
      SplitHasNoCommas(s[n + 1..]);
    } else {
      assert s[..n] == s;
    }
  }

  lemma {:induction false} KeptAreFields(parts: seq<string>)
    requires forall p :: p in parts ==> ',' !in p
    ensures forall p :: p in Kept(parts) ==> IsField(p)
  {
    if parts != [] {
      assert parts[0] in parts;
      TrimmedSplits(parts[0]);
      KeptAreFields(parts[1..]);
    }
  }

  lemma {:induction false} FieldsAreKept(parts: seq<string>)
    requires forall p :: p in parts ==> IsField(p)
    ensures Kept(parts) == parts
  {
    if parts != [] {
      assert parts[0] in parts;
      CoreIsTrimmed("", parts[0], "");
      assert "" + parts[0] + "" == parts[0];
      FieldsAreKept(parts[1..]);
    }
  }

  /** Splitting inverts joining with commas on every list of non-empty, trimmed, comma-free parts; those
      are exactly the lists that come back, because every result is such a list. */
  lemma SplitInvertsJoin(parts: seq<string>)
    ensures Fields(Join(parts, ',')) == parts <==> forall p :: p in parts ==> IsField(p)
  {
    SplitHasNoCommas(Join(parts, ','));
    KeptAreFields(Split(Join(parts, ','), ','));
    if parts == [] {
      FieldsLast("");
    } else if forall p :: p in parts ==> IsField(p) {
      SplitJoin(parts, ',');
      FieldsAreKept(parts);
    }
  }

  /** Whatever the parts of a header are, blank ones included, splitting gives exactly those with text,
      trimmed and in order. */
  lemma FieldsOfJoin(parts: seq<string>) returns (at: seq<nat>)
    requires parts != [] && forall p :: p in parts ==> ',' !in p
    ensures Positions(at, |parts|, TextPositions(parts)) && PartsAt(Fields(Join(parts, ',')), at, parts)
  {
    SplitJoin(parts, ',');
    at := KeptPositions(parts);
  }

  /** Hence a header rebuilt from its parts splits into the same parts. */
  lemma SplitIsStable(s: string)
    ensures Fields(Join(Fields(s), ',')) == Fields(s)
  {
    SplitHasNoCommas(s);
    KeptAreFields(Split(s, ','));
    SplitInvertsJoin(Fields(s));
  }
}
