/** Small definitions shared by the models of the job crawler. */
module Prelude {

  datatype Option<+T> = None | Some(value: T)

  // Go's int on the deployed 64-bit platforms.
  const MAX_INT64: int := 0x7fff_ffff_ffff_ffff
  const MIN_INT64: int := -0x8000_0000_0000_0000

  predicate IsInt64(x: int) {
    MIN_INT64 <= x <= MAX_INT64
  }

  /** Two's-complement wrap-around of an int64 arithmetic result. */
  function Wrap64(x: int): (r: int)
    ensures IsInt64(r)
    ensures IsInt64(x) <==> r == x
  {
    var m := x % 0x1_0000_0000_0000_0000;
    if m > MAX_INT64 then m - 0x1_0000_0000_0000_0000 else m
  }

  /** The sequence s without its last element. */
  function Front<T>(s: seq<T>): seq<T>
    requires s != []
  {
    s[..|s| - 1]
  }

  function Last<T>(s: seq<T>): T
    requires s != []
  {
    s[|s| - 1]
  }

  function Max(a: int, b: int): int {
    if a < b then b else a
  }

  /** How often x occurs in s. */
  function Tally<T(==)>(s: seq<T>, x: T): nat {
    if s == [] then 0 else Tally(Front(s), x) + if Last(s) == x then 1 else 0
  }

  lemma TallyAppend<T(!new)>(s: seq<T>, y: T)
    ensures forall x :: Tally(s + [y], x) == Tally(s, x) + if y == x then 1 else 0
  {
    assert Front(s + [y]) == s;
  }

  /** `at` lists the positions below n that are kept, in rising order. */
  ghost predicate Positions(at: seq<nat>, n: nat, keep: nat -> bool) {
    && (forall i, j :: 0 <= i < j < |at| ==> at[i] < at[j])
    && (forall k: nat :: k in at <==> k < n && keep(k))
  }

  /** The elements of s at those positions. */
  ghost predicate ElementsAt<T>(s: seq<T>, at: seq<nat>, elements: seq<T>) {
    |elements| == |at| && forall i :: 0 <= i < |at| ==> at[i] < |s| && elements[i] == s[at[i]]
  }

  function NextPosition(at: seq<nat>, n: nat, keep: nat -> bool): seq<nat> {
    at + if keep(n) then [n] else []
  }

  lemma NextPositionIsLast(at: seq<nat>, n: nat, keep: nat -> bool)
    requires Positions(at, n, keep)
    ensures Positions(NextPosition(at, n, keep), n + 1, keep)
  {
    var next := NextPosition(at, n, keep);
    forall i, j | 0 <= i < j < |next| ensures next[i] < next[j] {
      if j == |at| { assert at[i] in at; }
    }
    forall k: nat ensures k in next <==> k < n + 1 && keep(k) {
      assert k in next <==> k in at || (keep(n) && k == n);
    }
  }

  /** A subset is no larger than the set that contains it. */
  lemma {:induction false} SubsetSize<T>(a: set<T>, b: set<T>)
    requires a <= b
    ensures |a| <= |b|
  {
    assert b == a + (b - a);
    assert |a + (b - a)| == |a| + |b - a|;
  }
}
