/** internal/processor/normalizer.go, ExtractTags. */
module Tags {
  import opened Prelude
  import opened Strings
  import Fingerprint

  /** The keywords that occur in the text. */
  function FoundIn(keywords: seq<string>, text: string): set<string> {
    set k | k in keywords && Contains(text, k)
  }

  function SearchedText(title: string, description: string, low: char -> char): string {
    Fingerprint.ToLower(title + " " + description, low)
  }

  /** A keyword of one word is found exactly when the title or the description has it, each in lower case;
      none is found across the two. */
  lemma WordsAreFoundInEither(title: string, description: string, word: string, low: char -> char)
    requires ' ' !in word && low(' ') == ' '
    ensures Contains(SearchedText(title, description, low), word)
       <==> Contains(Fingerprint.ToLower(title, low), word) || Contains(Fingerprint.ToLower(description, low), word)
  {
    var a, b := Fingerprint.ToLower(title, low), Fingerprint.ToLower(description, low);
    assert SearchedText(title, description, low) == a + [' '] + b;
    ContainedInEither(a, ' ', b, word);
  }

  lemma ContainedInEither(a: string, c: char, b: string, word: string)
    requires c !in word
    ensures Contains(a + [c] + b, word) <==> Contains(a, word) || Contains(b, word)
  {
    var s := a + [c] + b;
    if Contains(s, word) {
      var k :| 0 <= k <= |s| && OccursAt(s, word, k);
      assert s[|a|] == c;
      forall j | k <= j < k + |word| ensures s[j] != c {
        assert s[j] == word[j - k];
      }
      if k + |word| <= |a| {
        assert a[k..k + |word|] == s[k..k + |word|];
        assert OccursAt(a, word, k);
      } else {
        assert b[k - |a| - 1..k - |a| - 1 + |word|] == s[k..k + |word|];
        assert OccursAt(b, word, k - |a| - 1);
      }
    }
    if Contains(a, word) {
      var k :| 0 <= k <= |a| && OccursAt(a, word, k);
      assert s[k..k + |word|] == a[k..k + |word|];
      assert OccursAt(s, word, k);
    }
    if Contains(b, word) {
      var k :| 0 <= k <= |b| && OccursAt(b, word, k);
      assert s[|a| + 1 + k..|a| + 1 + k + |word|] == b[k..k + |word|];
      assert OccursAt(s, word, |a| + 1 + k);
    }
  }

  /** The tags are the found keywords, each once, in some order. */
  ghost predicate Enumerates(tags: seq<string>, found: set<string>) {
    && (forall i, j :: 0 <= i < j < |tags| ==> tags[i] != tags[j])
    && (forall t :: t in tags <==> t in found)
  }

  /** The order is that of ranging over a Go map, which is none. */
  method ExtractTags(title: string, description: string, keywords: seq<string>, low: char -> char) returns (tags: seq<string>)
    ensures Enumerates(tags, FoundIn(keywords, SearchedText(title, description, low)))
  {
    var combined := Fingerprint.ToLower(title + " " + description, low);
    var seen: map<string, bool> := map[];
    for i := 0 to |keywords|
      invariant seen.Keys == FoundIn(keywords[..i], combined)
    {
      assert keywords[..i + 1] == keywords[..i] + [keywords[i]];
      if Contains(combined, keywords[i]) {
        seen := seen[keywords[i] := true];
      }
    }
    assert keywords[..|keywords|] == keywords;
    tags := [];
    var rest := seen.Keys;
    while rest != {}
      invariant Enumerates(tags, seen.Keys - rest) && rest <= seen.Keys
    {
      var k :| k in rest;
      tags := tags + [k];
      rest := rest - {k};
    }
  }

  /** The order of Go strings. */
  predicate AtMost(a: string, b: string) {
    a == "" || (b != "" && (a[0] < b[0] || (a[0] == b[0] && AtMost(a[1..], b[1..]))))
  }

  lemma {:induction false} AtMostIsAntisymmetric(a: string, b: string)
    requires AtMost(a, b) && AtMost(b, a)
    ensures a == b
  {
    if a != "" {
      AtMostIsAntisymmetric(a[1..], b[1..]);
      assert a == [a[0]] + a[1..] && b == [b[0]] + b[1..];
    }
  }

  ghost predicate Sorted(tags: seq<string>) {
    forall i, j :: 0 <= i < j < |tags| ==> AtMost(tags[i], tags[j])
  }

  lemma {:induction false} SomeEnumeration(found: set<string>) returns (tags: seq<string>)
    ensures Enumerates(tags, found)
  {
    if found == {} {
      tags := [];
    } else {
      var k :| k in found;
      var more := SomeEnumeration(found - {k});
      tags := [k] + more;
    }
  }

  /** Two found keywords can come out either way round. */
  lemma BothOrders(found: set<string>, a: string, b: string) returns (one: seq<string>, other: seq<string>)
    requires a in found && b in found && a != b
    ensures Enumerates(one, found) && Enumerates(other, found)
    ensures |one| >= 2 && one[0] == a && one[1] == b && |other| >= 2 && other[0] == b && other[1] == a
  {
    var more := SomeEnumeration(found - {a, b});
    one, other := [a, b] + more, [b, a] + more;
  }

  /** The tags are sorted whatever the order of the map if and only if at most one keyword is found. */
  lemma SortedOnlyWhenAlone(found: set<string>)
    ensures (forall tags :: Enumerates(tags, found) ==> Sorted(tags)) <==> |found| <= 1
  {
    if |found| <= 1 {
      forall tags | Enumerates(tags, found) ensures |tags| <= 1 {
        if |tags| > 1 { SubsetSize({tags[0], tags[1]}, found); }
      }
    } else {
      var a :| a in found;
      assert |found - {a}| == |found| - 1;
      var b :| b in found - {a};
      var one, other := BothOrders(found, a, b);
      if Sorted(one) && Sorted(other) { AtMostIsAntisymmetric(a, b); }
    }
  }

  /** When the keywords are in lower case, so are the tags. */
  lemma TagsAreLower(tags: seq<string>, keywords: seq<string>, text: string, low: char -> char)
    requires forall k :: k in keywords ==> Fingerprint.ToLower(k, low) == k
    requires Enumerates(tags, FoundIn(keywords, text))
    ensures forall t :: t in tags ==> Fingerprint.ToLower(t, low) == t && Contains(text, t)
  {
  }
}
