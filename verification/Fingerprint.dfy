/** internal/processor/dedup.go: the content fingerprint. */
module Fingerprint {
  import opened Prelude
  import opened Strings

  /** unicode.IsSpace, which strings.TrimSpace uses. */
  predicate IsSpace(c: char) {
    || '\t' <= c <= '\r' || c == ' ' || c == '\U{85}' || c == '\U{A0}' || c == '\U{1680}'
    || '\U{2000}' <= c <= '\U{200A}' || c == '\U{2028}' || c == '\U{2029}' || c == '\U{202F}'
    || c == '\U{205F}' || c == '\U{3000}'
  }

  /** What is used of unicode.ToLower: lowering is settled after one step, keeps spaces and
      non-spaces apart, and makes no new pipe. */
  ghost predicate LowersRunes(low: char -> char) {
    && (forall c :: low(low(c)) == low(c))
    && (forall c :: IsSpace(low(c)) <==> IsSpace(c))
    && (forall c :: IsBlank(c) ==> low(c) == c)
    && (forall c :: IsBlank(low(c)) ==> IsBlank(c))
    && (forall c :: low(c) == '|' ==> c == '|')
  }

  function ToLower(s: string, low: char -> char): string {
    seq(|s|, i requires 0 <= i < |s| => low(s[i]))
  }

  function TrimLeft(s: string): string {
    if s != "" && IsSpace(s[0]) then TrimLeft(s[1..]) else s
  }

  function TrimRight(s: string): string {
    if s != "" && IsSpace(Last(s)) then TrimRight(Front(s)) else s
  }

  function TrimSpace(s: string): string {
    TrimRight(TrimLeft(s))
  }

  function SkipBlanks(s: string): (r: string)
    ensures |r| <= |s| && (r != "" ==> !IsBlank(r[0]))
    ensures s != "" && IsBlank(s[0]) ==> |r| < |s|
  {
    if s != "" && IsBlank(s[0]) then SkipBlanks(s[1..]) else s
  }

  /** regexp `\s+` replaced by one space throughout. */
  function Collapse(s: string): string
    decreases |s|
  {
    if s == "" then ""
    else if IsBlank(s[0]) then " " + Collapse(SkipBlanks(s))
    else [s[0]] + Collapse(s[1..])
  }

  function NormaliseField(s: string, low: char -> char): string {
    Collapse(ToLower(TrimSpace(s), low))
  }

  function JoinFields(title: string, company: string, location: string, low: char -> char): string {
    NormaliseField(title, low) + "|" + NormaliseField(company, low) + "|" + NormaliseField(location, low)
  }

  /** `hash` stands for hex(SHA-256(.)). */
  function Fingerprint(title: string, company: string, location: string, low: char -> char, hash: string -> string): string {
    hash(JoinFields(title, company, location, low))
  }

  // ---- The normal form is the sequence of words ----

  function WordEnd(s: string): (n: nat)
    ensures n <= |s| && (forall i :: 0 <= i < n ==> !IsBlank(s[i])) && (n < |s| ==> IsBlank(s[n]))
  {
    if s == "" || IsBlank(s[0]) then 0 else 1 + WordEnd(s[1..])
  }

  /** The maximal blank-free pieces of s. */
  function Words(s: string): seq<string>
    decreases |s|
  {
    var t := SkipBlanks(s);
    if t == "" then [] else [t[..WordEnd(t)]] + Words(t[WordEnd(t)..])
  }

  function Spaced(words: seq<string>): string {
    if words == [] then "" else if |words| == 1 then words[0] else words[0] + " " + Spaced(words[1..])
  }

  ghost predicate AreWords(words: seq<string>) {
    forall i :: 0 <= i < |words| ==> words[i] != "" && forall j :: 0 <= j < |words[i]| ==> !IsBlank(words[i][j])
  }

  ghost predicate Tight(s: string) {
    s != "" ==> !IsBlank(s[0]) && !IsBlank(Last(s))
  }

  lemma {:induction false} WordsAreWords(s: string)
    ensures AreWords(Words(s))
    decreases |s|
  {
    var t := SkipBlanks(s);
    if t != "" {
      WordsAreWords(t[WordEnd(t)..]);
    }
  }

  lemma {:induction false} CollapseWord(s: string, n: nat)
    requires n <= |s| && forall i :: 0 <= i < n ==> !IsBlank(s[i])
    ensures Collapse(s) == s[..n] + Collapse(s[n..])
  {
    if n > 0 {
      CollapseWord(s[1..], n - 1);
      assert s[1..][n - 1..] == s[n..];
      assert s[..n] == [s[0]] + s[1..][..n - 1];
    } else {
      assert s[0..] == s;
    }
  }

  lemma {:induction false} SkipBlanksSuffix(s: string)
    ensures SkipBlanks(s) == s[|s| - |SkipBlanks(s)|..]
  {
    if s != "" && IsBlank(s[0]) {
      SkipBlanksSuffix(s[1..]);
    }
  }

  /** On a tight string, collapsing writes the words with single spaces between them. */
  lemma {:induction false} CollapseIsSpacedWords(s: string)
    requires Tight(s)
    ensures Collapse(s) == Spaced(Words(s))
    decreases |s|
  {
    if s != "" {
      var n := WordEnd(s);
      CollapseWord(s, n);
      var rest := s[n..];
      if rest != "" {
        var t := SkipBlanks(rest);
        SkipBlanksSuffix(rest);
        assert Last(rest) == Last(s);
        if t == "" {
          AllBlank(rest);
        } else {
          assert Last(t) == Last(s);
          CollapseIsSpacedWords(t);
          assert Words(rest) == Words(t);
          assert Words(t) != [];
          assert Words(s)[1..] == Words(rest);
        }
      }
    }
  }

  lemma {:induction false} AllBlank(s: string)
    requires SkipBlanks(s) == ""
    ensures forall i :: 0 <= i < |s| ==> IsBlank(s[i])
  {
    if s != "" {
      AllBlank(s[1..]);
    }
  }

  lemma {:induction false} WordsOfWordThen(w: string, rest: string)
    requires w != "" && (forall j :: 0 <= j < |w| ==> !IsBlank(w[j])) && (rest != "" ==> IsBlank(rest[0]))
    ensures Words(w + rest) == [w] + Words(rest)
  {
    var s := w + rest;
    assert s[0] == w[0];
    assert SkipBlanks(s) == s;
    var n := WordEnd(s);
    assert forall i :: 0 <= i < |w| ==> s[i] == w[i];
    assert rest != "" ==> s[|w|] == rest[0];
    assert n == |w|;
    assert s[..n] == w && s[n..] == rest;
  }

  lemma LeadingSpace(tail: string)
    ensures Words(" " + tail) == Words(tail)
  {
    assert (" " + tail)[1..] == tail;
    assert SkipBlanks(" " + tail) == SkipBlanks(tail);
  }

  lemma WordsAfterSpace(w: string, tail: string)
    requires w != "" && forall j :: 0 <= j < |w| ==> !IsBlank(w[j])
    ensures Words(w + " " + tail) == [w] + Words(tail)
  {
    assert w + " " + tail == w + (" " + tail);
    WordsOfWordThen(w, " " + tail);
    LeadingSpace(tail);
  }

  /** Words written with single spaces are read back. */
  lemma {:induction false} WordsOfSpaced(words: seq<string>)
    requires AreWords(words)
    ensures Words(Spaced(words)) == words
  {
    if |words| == 1 {
      WordsOfWordThen(words[0], "");
      assert words[0] + "" == words[0];
    } else if words != [] {
      WordsOfSpaced(words[1..]);
      WordsAfterSpace(words[0], Spaced(words[1..]));
    }
  }

  // ---- Trimming ----

  lemma {:induction false} TrimRightEnds(s: string)
    ensures TrimRight(s) <= s
    ensures TrimRight(s) != "" ==> !IsSpace(Last(TrimRight(s)))
    ensures forall i :: |TrimRight(s)| <= i < |s| ==> IsSpace(s[i])
  {
    if s != "" && IsSpace(Last(s)) {
      TrimRightEnds(Front(s));
    }
  }

  lemma {:induction false} TrimLeftEnds(s: string)
    ensures |TrimLeft(s)| <= |s| && TrimLeft(s) == s[|s| - |TrimLeft(s)|..]
    ensures TrimLeft(s) != "" ==> !IsSpace(TrimLeft(s)[0])
    ensures forall i :: 0 <= i < |s| - |TrimLeft(s)| ==> IsSpace(s[i])
  {
    if s != "" && IsSpace(s[0]) {
      TrimLeftEnds(s[1..]);
      assert forall i :: 0 < i < |s| ==> s[i] == s[1..][i - 1];
    }
  }

  ghost predicate Trimmed(s: string) {
    s != "" ==> !IsSpace(s[0]) && !IsSpace(Last(s))
  }

  ghost predicate AllSpace(s: string) {
    forall i :: 0 <= i < |s| ==> IsSpace(s[i])
  }

  lemma {:induction false} TrimLeftIs(left: string, rest: string)
    requires AllSpace(left) && (rest != "" ==> !IsSpace(rest[0]))
    ensures TrimLeft(left + rest) == rest
  {
    if left == "" {
      assert left + rest == rest;
    } else {
      assert (left + rest)[1..] == left[1..] + rest;
      TrimLeftIs(left[1..], rest);
    }
  }

  lemma {:induction false} TrimRightIs(mid: string, right: string)
    requires AllSpace(right) && (mid != "" ==> !IsSpace(Last(mid)))
    ensures TrimRight(mid + right) == mid
  {
    if right == "" {
      assert mid + right == mid;
    } else {
      assert Front(mid + right) == mid + Front(right) && Last(mid + right) == Last(right);
      TrimRightIs(mid, Front(right));
    }
  }

  /** The trimmed string is the only one with space around it and none at its ends. */
  lemma TrimSpaceUnique(left: string, mid: string, right: string)
    requires AllSpace(left) && AllSpace(right) && Trimmed(mid)
    ensures TrimSpace(left + mid + right) == mid
  {
    if mid == "" {
      TrimLeftIs(left + right, "");
      assert left + right + "" == left + mid + right;
    } else {
      assert left + (mid + right) == left + mid + right;
      TrimLeftIs(left, mid + right);
      TrimRightIs(mid, right);
    }
  }

  lemma TrimmedStays(s: string)
    requires Trimmed(s)
    ensures TrimSpace(s) == s
  {
    TrimSpaceUnique("", s, "");
    assert "" + s + "" == s;
  }

  lemma TrimSpaceSplits(s: string) returns (left: string, right: string)
    ensures s == left + TrimSpace(s) + right && AllSpace(left) && AllSpace(right) && Trimmed(TrimSpace(s))
  {
    TrimLeftEnds(s);
    var t := TrimLeft(s);
    left := s[..|s| - |t|];
    right := TrimRightSplits(t);
    assert s == left + t;
  }

  lemma TrimRightSplits(t: string) returns (right: string)
    requires t != "" ==> !IsSpace(t[0])
    ensures t == TrimRight(t) + right && AllSpace(right) && Trimmed(TrimRight(t))
  {
    TrimRightEnds(t);
    var u := TrimRight(t);
    right := t[|u|..];
    if u != "" { assert u[0] == t[0]; }
  }

  // ---- The normal form ----

  lemma LowerTrimmed(s: string, low: char -> char)
    requires LowersRunes(low) && Trimmed(s)
    ensures Trimmed(ToLower(s, low)) && Tight(ToLower(s, low))
  {
  }

  /** The words a field is compared by. */
  function FieldWords(s: string, low: char -> char): seq<string> {
    Words(ToLower(TrimSpace(s), low))
  }

  lemma NormaliseIsSpacedWords(s: string, low: char -> char)
    requires LowersRunes(low)
    ensures NormaliseField(s, low) == Spaced(FieldWords(s, low)) && AreWords(FieldWords(s, low))
  {
    var _, _ := TrimSpaceSplits(s);
    LowerTrimmed(TrimSpace(s), low);
    CollapseIsSpacedWords(ToLower(TrimSpace(s), low));
    WordsAreWords(ToLower(TrimSpace(s), low));
  }

  /** Canonical form: two fields normalise alike if and only if they have the same lower-case words. */
  lemma NormalFormIsCanonical(s: string, t: string, low: char -> char)
    requires LowersRunes(low)
    ensures NormaliseField(s, low) == NormaliseField(t, low) <==> FieldWords(s, low) == FieldWords(t, low)
  {
    NormaliseIsSpacedWords(s, low);
    NormaliseIsSpacedWords(t, low);
    WordsOfSpaced(FieldWords(s, low));
    WordsOfSpaced(FieldWords(t, low));
  }

  lemma {:induction false} CollapseChars(s: string, i: nat)
    requires i < |Collapse(s)|
    ensures Collapse(s)[i] == ' ' || Collapse(s)[i] in s
    decreases |s|
  {
    if i > 0 {
      if IsBlank(s[0]) {
        SkipBlanksSuffix(s);
        CollapseChars(SkipBlanks(s), i - 1);
      } else {
        CollapseChars(s[1..], i - 1);
      }
    }
  }

  lemma NormaliseChars(s: string, low: char -> char, c: char)
    requires c in NormaliseField(s, low)
    ensures c == ' ' || exists d :: d in s && c == low(d)
  {
    var lowered := ToLower(TrimSpace(s), low);
    var i :| 0 <= i < |Collapse(lowered)| && Collapse(lowered)[i] == c;
    CollapseChars(lowered, i);
    if c != ' ' {
      var left, right := TrimSpaceSplits(s);
      var m :| 0 <= m < |lowered| && lowered[m] == c;
      assert s[|left| + m] == TrimSpace(s)[m];
    }
  }

  /** Normalising twice is normalising once. */
  lemma NormaliseIsIdempotent(s: string, low: char -> char)
    requires LowersRunes(low)
    ensures NormaliseField(NormaliseField(s, low), low) == NormaliseField(s, low)
  {
    var n, words := NormaliseField(s, low), FieldWords(s, low);
    var lowered := ToLower(TrimSpace(s), low);
    NormaliseIsSpacedWords(s, low);
    forall i | 0 <= i < |n|
      ensures low(n[i]) == n[i]
    {
      NormaliseChars(s, low, n[i]);
    }
    assert ToLower(n, low) == n;
    var _, _ := TrimSpaceSplits(s);
    LowerTrimmed(TrimSpace(s), low);
    if lowered != "" { CollapseLast(lowered); }
    assert Trimmed(n) && Tight(n);
    TrimmedStays(n);
    WordsOfSpaced(words);
    CollapseIsSpacedWords(n);
  }

  lemma {:induction false} CollapseLast(s: string)
    requires s != "" && !IsBlank(Last(s))
    ensures Collapse(s) != "" && Last(Collapse(s)) == Last(s)
    decreases |s|
  {
    if IsBlank(s[0]) {
      SkipBlanksSuffix(s);
      var t := SkipBlanks(s);
      if t == "" { AllBlank(s); }
      assert Last(t) == Last(s);
      CollapseLast(t);
    } else if |s| > 1 {
      assert Last(s[1..]) == Last(s);
      CollapseLast(s[1..]);
    }
  }

  // ---- What normalising ignores ----

  /** Case: fields that lower to the same text, character by character, normalise alike. */
  lemma CaseIsIgnored(s: string, t: string, low: char -> char)
    requires LowersRunes(low) && |s| == |t| && forall i :: 0 <= i < |s| ==> low(s[i]) == low(t[i])
    ensures NormaliseField(s, low) == NormaliseField(t, low)
  {
    assert ToLower(s, low) == ToLower(t, low);
    TrimCommutesWithLower(s, low);
    TrimCommutesWithLower(t, low);
  }

  lemma TrimCommutesWithLower(s: string, low: char -> char)
    requires LowersRunes(low)
    ensures ToLower(TrimSpace(s), low) == TrimSpace(ToLower(s, low))
  {
    var left, right := TrimSpaceSplits(s);
    var l, m, r := ToLower(left, low), ToLower(TrimSpace(s), low), ToLower(right, low);
    LowerTrimmed(TrimSpace(s), low);
    assert ToLower(s, low) == l + m + r;
    TrimSpaceUnique(l, m, r);
  }

  /** Padding: white space around a field, Unicode spaces included. */
  lemma PaddingIsIgnored(left: string, s: string, right: string, low: char -> char)
    requires LowersRunes(low) && AllSpace(left) && AllSpace(right)
    ensures NormaliseField(left + s + right, low) == NormaliseField(s, low)
  {
    var l, r := TrimSpaceSplits(s);
    var mid := TrimSpace(s);
    assert left + s + right == (left + l) + mid + (r + right);
    TrimSpaceUnique(left + l, mid, r + right);
  }

  /** Inner white space: any two non-empty runs of blanks between the same texts. */
  lemma BlankRunsAreAlike(a: string, run: string, run': string, b: string, low: char -> char)
    requires LowersRunes(low) && Trimmed(a) && Trimmed(b) && a != "" && b != ""
    requires run != "" && run' != "" && (forall i :: 0 <= i < |run| ==> IsBlank(run[i]))
             && (forall i :: 0 <= i < |run'| ==> IsBlank(run'[i]))
    ensures NormaliseField(a + run + b, low) == NormaliseField(a + run' + b, low)
  {
    OneRun(a, run, b, low);
    OneRun(a, run', b, low);
  }

  lemma LowerConcat(a: string, b: string, low: char -> char)
    ensures ToLower(a + b, low) == ToLower(a, low) + ToLower(b, low)
  {
  }

  /** A field with one inner run of blanks, lowered and trimmed. */
  lemma LowerAround(a: string, run: string, b: string, low: char -> char)
    requires LowersRunes(low) && Trimmed(a) && Trimmed(b) && a != "" && b != ""
    requires forall i :: 0 <= i < |run| ==> IsBlank(run[i])
    ensures ToLower(TrimSpace(a + run + b), low) == ToLower(a, low) + (run + ToLower(b, low))
  {
    var s := a + (run + b);
    assert a + run + b == s && s[0] == a[0] && Last(s) == Last(b);
    TrimmedStays(s);
    LowerConcat(a, run + b, low);
    LowerConcat(run, b, low);
    assert ToLower(run, low) == run;
  }

  lemma OneRun(a: string, run: string, b: string, low: char -> char)
    requires LowersRunes(low) && Trimmed(a) && Trimmed(b) && a != "" && b != ""
    requires run != "" && forall i :: 0 <= i < |run| ==> IsBlank(run[i])
    ensures NormaliseField(a + run + b, low) == Collapse(ToLower(a, low)) + (" " + Collapse(ToLower(b, low)))
  {
    LowerAround(a, run, b, low);
    LowerTrimmed(a, low);
    LowerTrimmed(b, low);
    CollapseAround(ToLower(a, low), run, ToLower(b, low));
  }

  lemma {:induction false} SkipRun(run: string, b: string)
    requires (forall i :: 0 <= i < |run| ==> IsBlank(run[i])) && b != "" && !IsBlank(b[0])
    ensures SkipBlanks(run + b) == b
  {
    if run != "" {
      SkipRun(run[1..], b);
      assert (run + b)[1..] == run[1..] + b;
    } else {
      assert run + b == b;
    }
  }

  /** Collapsing in two steps, split after a non-blank. */
  lemma {:induction false} CollapseConcat(a: string, rest: string)
    requires a != "" ==> !IsBlank(Last(a))
    ensures Collapse(a + rest) == Collapse(a) + Collapse(rest)
    decreases |a|
  {
    if a == "" {
      assert a + rest == rest;
    } else if IsBlank(a[0]) {
      var t := SkipBlanks(a);
      SkipBlanksSuffix(a);
      if t == "" { AllBlank(a); }
      assert Last(t) == Last(a);
      SkipThrough(a, rest);
      CollapseConcat(t, rest);
    } else {
      if |a| > 1 { assert Last(a[1..]) == Last(a); }
      assert (a + rest)[1..] == a[1..] + rest;
      CollapseConcat(a[1..], rest);
    }
  }

  lemma CollapseRun(run: string, b: string)
    requires run != "" && (forall i :: 0 <= i < |run| ==> IsBlank(run[i])) && b != "" && !IsBlank(b[0])
    ensures Collapse(run + b) == " " + Collapse(b)
  {
    SkipRun(run, b);
    assert IsBlank((run + b)[0]);
  }

  lemma CollapseAround(a: string, run: string, b: string)
    requires run != "" && (forall i :: 0 <= i < |run| ==> IsBlank(run[i])) && b != "" && !IsBlank(b[0])
    requires a != "" ==> !IsBlank(Last(a))
    ensures Collapse(a + (run + b)) == Collapse(a) + (" " + Collapse(b))
  {
    CollapseConcat(a, run + b);
    CollapseRun(run, b);
  }

  lemma {:induction false} SkipThrough(a: string, rest: string)
    requires SkipBlanks(a) != ""
    ensures SkipBlanks(a + rest) == SkipBlanks(a) + rest
  {
    if a != "" && IsBlank(a[0]) {
      SkipThrough(a[1..], rest);
      assert (a + rest)[1..] == a[1..] + rest;
    }
  }

  // ---- The fingerprint ----

  lemma NormalisePipeFree(s: string, low: char -> char)
    requires LowersRunes(low) && '|' !in s
    ensures '|' !in NormaliseField(s, low)
  {
    if '|' in NormaliseField(s, low) {
      NormaliseChars(s, low, '|');
    }
  }

  lemma JoinSplits(a: string, b: string, c: string, a': string, b': string, c': string)
    requires '|' !in a && '|' !in b && '|' !in a' && '|' !in b'
    ensures a + "|" + b + "|" + c == a' + "|" + b' + "|" + c' <==> a == a' && b == b' && c == c'
  {
    if a + "|" + b + "|" + c == a' + "|" + b' + "|" + c' {
      assert a + "|" + b + "|" + c == a + "|" + (b + "|" + c);
      assert a' + "|" + b' + "|" + c' == a' + "|" + (b' + "|" + c');
      Strings.SeparatorDecides(a, '|', b + "|" + c, a', b' + "|" + c');
      Strings.SeparatorDecides(b, '|', c, b', c');
    }
  }

  ghost predicate Injective(hash: string -> string) {
    forall x, y :: hash(x) == hash(y) ==> x == y
  }

  /** Two jobs whose titles and companies have no pipe share a fingerprint if and only if all three
      of their normalised fields agree; the location may have pipes. */
  lemma FingerprintIdentifies(t: string, c: string, l: string, t': string, c': string, l': string,
                              low: char -> char, hash: string -> string)
    requires LowersRunes(low) && Injective(hash)
    requires '|' !in t && '|' !in c && '|' !in t' && '|' !in c'
    ensures Fingerprint(t, c, l, low, hash) == Fingerprint(t', c', l', low, hash)
       <==> && NormaliseField(t, low) == NormaliseField(t', low)
            && NormaliseField(c, low) == NormaliseField(c', low)
            && NormaliseField(l, low) == NormaliseField(l', low)
  {
    NormalisePipeFree(t, low);
    NormalisePipeFree(c, low);
    NormalisePipeFree(t', low);
    NormalisePipeFree(c', low);
    JoinSplits(NormaliseField(t, low), NormaliseField(c, low), NormaliseField(l, low),
               NormaliseField(t', low), NormaliseField(c', low), NormaliseField(l', low));
  }

  // ---- Exactly which jobs share their fingerprint with other fields ----

  ghost predicate IsNormal(s: string, low: char -> char) {
    NormaliseField(s, low) == s
  }

  /** What a normal form looks like: lower case, no space at either end, and inside only single blanks,
      each the space character. */
  ghost predicate NormalShape(s: string, low: char -> char) {
    && (forall i :: 0 <= i < |s| ==> low(s[i]) == s[i])
    && Trimmed(s)
    && SingleSpaced(s)
  }

  ghost predicate SingleSpaced(s: string) {
    && (forall i :: 0 <= i < |s| && IsBlank(s[i]) ==> s[i] == ' ')
    && (forall i :: 0 < i < |s| && IsBlank(s[i - 1]) ==> !IsBlank(s[i]))
  }

  lemma {:induction false} CollapseSingleSpaced(s: string)
    requires SingleSpaced(s)
    ensures Collapse(s) == s
    decreases |s|
  {
    if s != "" {
      var t := s[1..];
      assert forall i :: 0 <= i < |t| ==> t[i] == s[i + 1];
      assert SingleSpaced(t);
      CollapseSingleSpaced(t);
      assert s == [s[0]] + t;
      if IsBlank(s[0]) {
        assert t != "" ==> !IsBlank(t[0]);
        assert SkipBlanks(s) == t;
      }
    }
  }

  lemma {:induction false} CollapseIsSingleSpaced(s: string)
    ensures SingleSpaced(Collapse(s))
    ensures s != "" && !IsBlank(s[0]) ==> Collapse(s) != "" && !IsBlank(Collapse(s)[0])
    decreases |s|
  {
    if s != "" {
      var t := if IsBlank(s[0]) then SkipBlanks(s) else s[1..];
      var first := if IsBlank(s[0]) then ' ' else s[0];
      CollapseIsSingleSpaced(t);
      assert Collapse(s) == [first] + Collapse(t);
    }
  }

  lemma NormalFormsHaveTheShape(s: string, low: char -> char)
    requires LowersRunes(low)
    ensures IsNormal(s, low) <==> NormalShape(s, low)
  {
    if IsNormal(s, low) {
      NormaliseHasTheShape(s, low);
    }
    if NormalShape(s, low) {
      ShapeIsNormal(s, low);
    }
  }

  lemma ShapeIsNormal(s: string, low: char -> char)
    requires NormalShape(s, low)
    ensures IsNormal(s, low)
  {
    TrimmedStays(s);
    assert ToLower(s, low) == s;
    CollapseSingleSpaced(s);
  }

  lemma NormaliseHasTheShape(s: string, low: char -> char)
    requires LowersRunes(low)
    ensures NormalShape(NormaliseField(s, low), low)
  {
    var n, lowered := NormaliseField(s, low), ToLower(TrimSpace(s), low);
    forall i | 0 <= i < |n| ensures low(n[i]) == n[i] {
      NormaliseChars(s, low, n[i]);
    }
    var _, _ := TrimSpaceSplits(s);
    LowerTrimmed(TrimSpace(s), low);
    CollapseIsSingleSpaced(lowered);
    if lowered != "" { CollapseLast(lowered); }
  }

  /** The text can be cut at a pipe without leaving a space at the end of a piece. */
  predicate CutAt(s: string, i: nat) {
    i < |s| && s[i] == '|' && (i > 0 ==> !IsSpace(s[i - 1])) && (i + 1 < |s| ==> !IsSpace(s[i + 1]))
  }

  ghost predicate OpenPipe(s: string) {
    exists i :: 0 <= i < |s| && CutAt(s, i)
  }

  lemma CutPieces(s: string, i: nat, low: char -> char)
    requires NormalShape(s, low) && CutAt(s, i)
    ensures NormalShape(s[..i], low) && NormalShape(s[i + 1..], low) && low('|') == '|'
    ensures s == s[..i] + "|" + s[i + 1..]
  {
    var a, b := s[..i], s[i + 1..];
    assert forall k :: 0 <= k < |a| ==> a[k] == s[k];
    assert forall k :: 0 <= k < |b| ==> b[k] == s[i + 1 + k];
    assert forall k :: i + 1 <= k < |s| ==> s[k] == b[k - i - 1];
  }

  lemma JoinedPieces(a: string, b: string, low: char -> char)
    requires NormalShape(a, low) && NormalShape(b, low) && low('|') == '|' && !IsSpace('|') && !IsBlank('|')
    ensures NormalShape(a + "|" + b, low)
  {
    var s := a + "|" + b;
    assert forall k :: 0 <= k < |a| ==> s[k] == a[k];
    assert forall k :: 0 <= k < |b| ==> s[|a| + 1 + k] == b[k];
    assert forall k :: |a| < k < |s| ==> s[k] == b[k - |a| - 1];
  }

  datatype Fields = Fields(title: string, company: string, location: string)

  function Joined(f: Fields): string {
    f.title + "|" + f.company + "|" + f.location
  }

  ghost predicate NormalFields(f: Fields, low: char -> char) {
    NormalShape(f.title, low) && NormalShape(f.company, low) && NormalShape(f.location, low)
  }

  /** Other normal fields with the same joined text. */
  ghost predicate Recut(f: Fields, g: Fields, low: char -> char) {
    NormalFields(g, low) && g != f && Joined(g) == Joined(f)
  }

  lemma Regroup(x: string, y: string, z: string)
    ensures x + "|" + (y + "|" + z) == x + "|" + y + "|" + z
  {
  }

  lemma RecutTitle(f: Fields, i: nat, low: char -> char)
    requires NormalFields(f, low) && CutAt(f.title, i)
    ensures Recut(f, Fields(f.title[..i], f.title[i + 1..] + "|" + f.company, f.location), low)
  {
    var a, b := f.title[..i], f.title[i + 1..];
    CutPieces(f.title, i, low);
    JoinedPieces(b, f.company, low);
    Regroup(a, b, f.company);
    assert |a| < |f.title|;
  }

  lemma RecutCompany(f: Fields, i: nat, low: char -> char)
    requires NormalFields(f, low) && CutAt(f.company, i)
    ensures Recut(f, Fields(f.title + "|" + f.company[..i], f.company[i + 1..], f.location), low)
  {
    var a, b := f.company[..i], f.company[i + 1..];
    CutPieces(f.company, i, low);
    JoinedPieces(f.title, a, low);
    Regroup(f.title, a, b);
    assert |f.title + "|" + a| > |f.title|;
  }

  lemma RecutLocation(f: Fields, i: nat, low: char -> char)
    requires NormalFields(f, low) && CutAt(f.location, i)
    ensures Recut(f, Fields(f.title, f.company + "|" + f.location[..i], f.location[i + 1..]), low)
  {
    var a, b := f.location[..i], f.location[i + 1..];
    CutPieces(f.location, i, low);
    JoinedPieces(f.company, a, low);
    Regroup(f.title + "|" + f.company, a, b);
    Regroup(f.title, f.company, a);
    assert |f.company + "|" + a| > |f.company|;
  }

  lemma OpenPipeRecuts(f: Fields, low: char -> char) returns (g: Fields)
    requires NormalFields(f, low) && (OpenPipe(f.title) || OpenPipe(f.company) || OpenPipe(f.location))
    ensures Recut(f, g, low)
  {
    if OpenPipe(f.title) {
      var i :| 0 <= i < |f.title| && CutAt(f.title, i);
      RecutTitle(f, i, low);
      g := Fields(f.title[..i], f.title[i + 1..] + "|" + f.company, f.location);
    } else if OpenPipe(f.company) {
      var i :| 0 <= i < |f.company| && CutAt(f.company, i);
      RecutCompany(f, i, low);
      g := Fields(f.title + "|" + f.company[..i], f.company[i + 1..], f.location);
    } else {
      var i :| 0 <= i < |f.location| && CutAt(f.location, i);
      RecutLocation(f, i, low);
      g := Fields(f.title, f.company + "|" + f.location[..i], f.location[i + 1..]);
    }
  }

  /** The two separators of joined normal fields are places to cut. */
  lemma SeparatorsAreCuts(f: Fields, low: char -> char)
    requires NormalFields(f, low)
    ensures CutAt(Joined(f), |f.title|) && CutAt(Joined(f), |f.title| + 1 + |f.company|)
  {
    var s, p := Joined(f), |f.title|;
    var r := p + 2 + |f.company|;
    assert forall k :: 0 <= k < p ==> s[k] == f.title[k];
    assert forall k :: 0 <= k < |f.company| ==> s[p + 1 + k] == f.company[k];
    assert forall k :: 0 <= k < |f.location| ==> s[r + k] == f.location[k];
  }

  /** Any other place to cut lies inside a field. */
  lemma OtherCutIsOpen(f: Fields, q: nat)
    requires CutAt(Joined(f), q) && q != |f.title| && q != |f.title| + 1 + |f.company|
    ensures OpenPipe(f.title) || OpenPipe(f.company) || OpenPipe(f.location)
  {
    var s, p, r := Joined(f), |f.title|, |f.title| + 2 + |f.company|;
    assert forall k :: 0 <= k < p ==> s[k] == f.title[k];
    assert forall k :: 0 <= k < |f.company| ==> s[p + 1 + k] == f.company[k];
    assert forall k :: 0 <= k < |f.location| ==> s[r + k] == f.location[k];
    if q < p {
      assert CutAt(f.title, q);
    } else if q < r - 1 {
      assert CutAt(f.company, q - p - 1);
    } else {
      assert CutAt(f.location, q - r);
    }
  }

  lemma SameCutsSameFields(f: Fields, g: Fields)
    requires Joined(f) == Joined(g) && |f.title| == |g.title| && |f.company| == |g.company|
    ensures f == g
  {
    var p, r := |f.title|, |f.title| + 2 + |f.company|;
    assert f.title == Joined(f)[..p] && g.title == Joined(g)[..p];
    assert f.company == Joined(f)[p + 1..r - 1] && g.company == Joined(g)[p + 1..r - 1];
    assert f.location == Joined(f)[r..] && g.location == Joined(g)[r..];
  }

  lemma RecutHasOpenPipe(f: Fields, g: Fields, low: char -> char)
    requires NormalFields(f, low) && Recut(f, g, low)
    ensures OpenPipe(f.title) || OpenPipe(f.company) || OpenPipe(f.location)
  {
    SeparatorsAreCuts(g, low);
    var q1, q2 := |g.title|, |g.title| + 1 + |g.company|;
    if q1 == |f.title| && q2 == |f.title| + 1 + |f.company| {
      SameCutsSameFields(f, g);
    } else if q1 != |f.title| && q1 != |f.title| + 1 + |f.company| {
      OtherCutIsOpen(f, q1);
    } else {
      OtherCutIsOpen(f, q2);
    }
  }

  function NormalisedFields(t: string, c: string, l: string, low: char -> char): Fields {
    Fields(NormaliseField(t, low), NormaliseField(c, low), NormaliseField(l, low))
  }

  /** Another job, told apart by its normalised fields, with the same fingerprint. */
  ghost predicate SharedBy(t: string, c: string, l: string, t': string, c': string, l': string,
                           low: char -> char, hash: string -> string) {
    && Fingerprint(t, c, l, low, hash) == Fingerprint(t', c', l', low, hash)
    && NormalisedFields(t, c, l, low) != NormalisedFields(t', c', l', low)
  }

  /** Exactly which jobs share their fingerprint with a job of other normalised fields: those one of
      whose normalised fields has a pipe with no space beside it. */
  lemma SharingIsExact(t: string, c: string, l: string, low: char -> char, hash: string -> string)
    requires LowersRunes(low) && Injective(hash)
    ensures (exists t', c', l' :: SharedBy(t, c, l, t', c', l', low, hash))
       <==> OpenPipe(NormaliseField(t, low)) || OpenPipe(NormaliseField(c, low)) || OpenPipe(NormaliseField(l, low))
  {
    var f := NormalisedFields(t, c, l, low);
    FieldsAreNormal(t, c, l, low);
    forall t', c', l' | SharedBy(t, c, l, t', c', l', low, hash)
      ensures OpenPipe(f.title) || OpenPipe(f.company) || OpenPipe(f.location)
    {
      FieldsAreNormal(t', c', l', low);
      RecutHasOpenPipe(f, NormalisedFields(t', c', l', low), low);
    }
    if OpenPipe(f.title) || OpenPipe(f.company) || OpenPipe(f.location) {
      var g := OpenPipeRecuts(f, low);
      NormalFormsHaveTheShape(g.title, low);
      NormalFormsHaveTheShape(g.company, low);
      NormalFormsHaveTheShape(g.location, low);
      assert NormalisedFields(g.title, g.company, g.location, low) == g;
      assert SharedBy(t, c, l, g.title, g.company, g.location, low, hash);
    }
  }

  lemma FieldsAreNormal(t: string, c: string, l: string, low: char -> char)
    requires LowersRunes(low)
    ensures NormalFields(NormalisedFields(t, c, l, low), low)
  {
    NormaliseHasTheShape(t, low);
    NormaliseHasTheShape(c, low);
    NormaliseHasTheShape(l, low);
  }

  lemma PlainPieces(low: char -> char)
    requires low('a') == 'a' && low('b') == 'b' && low('c') == 'c' && low('|') == '|'
    ensures NormalShape("a|b", low) && NormalShape("c", low) && NormalShape("", low)
    ensures NormalShape("a", low) && NormalShape("b|c", low)
  {
  }

  lemma ShapedFingerprint(t: string, c: string, l: string, low: char -> char, hash: string -> string)
    requires NormalShape(t, low) && NormalShape(c, low) && NormalShape(l, low)
    ensures Fingerprint(t, c, l, low, hash) == hash(t + "|" + c + "|" + l)
  {
    ShapeIsNormal(t, low);
    ShapeIsNormal(c, low);
    ShapeIsNormal(l, low);
  }

  /** The simplest such jobs: different titles and companies, one fingerprint. */
  lemma PipesCollide(low: char -> char, hash: string -> string)
    requires low('a') == 'a' && low('b') == 'b' && low('c') == 'c' && low('|') == '|'
    ensures Fingerprint("a|b", "c", "", low, hash) == Fingerprint("a", "b|c", "", low, hash)
  {
    PlainPieces(low);
    ShapedFingerprint("a|b", "c", "", low, hash);
    ShapedFingerprint("a", "b|c", "", low, hash);
    assert "a|b" + "|" + "c" + "|" + "" == "a" + "|" + "b|c" + "|" + "";
  }
}
