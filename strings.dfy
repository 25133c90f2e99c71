/**
 * The parts of Go's `strings` and `bytes` packages the parser relies on:
 * prefix and substring tests, `Index`, `Split`, `Join`, and removal of a
 * character (`strings.Replace(s, "-", "", -1)`).
 */
module GoStrings {
  import opened Common

  predicate HasPrefix(s: string, prefix: string) {
    |prefix| <= |s| && s[..|prefix|] == prefix
  }

  /** `sub` occurs in `s` starting at index `i`. */
  predicate OccursAt(s: string, sub: string, i: int) {
    0 <= i && i + |sub| <= |s| && s[i..i + |sub|] == sub
  }

  predicate Contains(s: string, sub: string) {
    exists i | 0 <= i <= |s| - |sub| :: OccursAt(s, sub, i)
  }

  /** Go's `strings.Index` for a non-empty separator: the first occurrence, or -1. */
  function Index(s: string, sub: string): (r: int)
    requires |sub| > 0
    ensures r == -1 || OccursAt(s, sub, r)
    ensures forall j :: 0 <= j && (r == -1 || j < r) ==> !OccursAt(s, sub, j)
    ensures r == -1 <==> !Contains(s, sub)
  {
    IndexFrom(s, sub, 0)
  }

  function IndexFrom(s: string, sub: string, i: nat): (r: int)
    requires |sub| > 0 && i <= |s|
    ensures r == -1 || (i <= r && OccursAt(s, sub, r))
    ensures forall j :: i <= j && (r == -1 || j < r) ==> !OccursAt(s, sub, j)
    decreases |s| - i
  {
    if i + |sub| > |s| then -1
    else if s[i..i + |sub|] == sub then i
    else IndexFrom(s, sub, i + 1)
  }

  /** The text before the first occurrence of `sep`, or all of `s` when there is none. */
  function Before(s: string, sep: string): (r: string)
    requires |sep| > 0
    ensures HasPrefix(s, r)
  {
    var i := Index(s, sep);
    if i < 0 then s else s[..i]
  }

  /** The text after the first occurrence of `sep`, or "" when there is none. */
  function After(s: string, sep: string): (r: string)
    requires |sep| > 0
    ensures Contains(s, sep) ==> s == Before(s, sep) + sep + r
  {
    var i := Index(s, sep);
    if i < 0 then "" else s[i + |sep|..]
  }

  /**
   * Go's `strings.Split` for a non-empty separator: the pieces between the
   * non-overlapping occurrences of `sep`, scanning left to right.
   */
  function Split(s: string, sep: string): (r: seq<string>)
    requires |sep| > 0
    ensures |r| >= 1
    ensures r[0] == Before(s, sep)
    ensures |r| >= 2 <==> Contains(s, sep)
    ensures |r| >= 2 ==> r[1] == Before(After(s, sep), sep)
    decreases |s|
  {
    var i := Index(s, sep);
    if i < 0 then [s] else [s[..i]] + Split(s[i + |sep|..], sep)
  }

  /** Go's `strings.Join`. */
  function Join(parts: seq<string>, sep: string): string {
    if |parts| == 0 then ""
    else if |parts| == 1 then parts[0]
    else parts[0] + sep + Join(parts[1..], sep)
  }

  /** Joining the pieces of a split with the same separator gives back the input. */
  lemma {:induction false} JoinSplit(s: string, sep: string)
    requires |sep| > 0
    ensures Join(Split(s, sep), sep) == s
    decreases |s|
  {
    var i := Index(s, sep);
    if i >= 0 {
      var rest := s[i + |sep|..];
      JoinSplit(rest, sep);
      assert Split(s, sep) == [s[..i]] + Split(rest, sep);
      assert s == s[..i] + sep + rest;
    }
  }

  /** No piece of a split contains the separator. */
  lemma {:induction false} SplitPiecesFree(s: string, sep: string, k: nat)
    requires |sep| > 0 && k < |Split(s, sep)|
    ensures !Contains(Split(s, sep)[k], sep)
    decreases |s|
  {
    var i := Index(s, sep);
    if i >= 0 {
      if k == 0 {
        PrefixBeforeFirst(s, sep, i);
      } else {
        SplitPiecesFree(s[i + |sep|..], sep, k - 1);
      }
    }
  }

  /** The text before a first occurrence holds no occurrence. */
  lemma PrefixBeforeFirst(s: string, sep: string, i: nat)
    requires |sep| > 0 && i <= |s| && forall j :: 0 <= j < i ==> !OccursAt(s, sep, j)
    ensures !Contains(s[..i], sep)
  {
    forall j | 0 <= j <= i - |sep| ensures !OccursAt(s[..i], sep, j) {
      assert s[..i][j..j + |sep|] == s[j..j + |sep|];
      assert !OccursAt(s, sep, j);
    }
  }

  /** `s` with every occurrence of `c` deleted. */
  function Remove(s: string, c: char): (r: string)
    ensures c !in r
    ensures forall x :: x != c ==> multiset(r)[x] == multiset(s)[x]
    ensures |r| == |s| - multiset(s)[c]
  {
    if s == [] then ""
    else
      assert s == [s[0]] + s[1..];
      var rest := Remove(s[1..], c);
      if s[0] == c then rest else [s[0]] + rest
  }

  /** Deleting from a concatenation deletes from each part: the kept characters stay in their order. */
  lemma {:induction false} RemoveConcat(a: string, b: string, c: char)
    ensures Remove(a + b, c) == Remove(a, c) + Remove(b, c)
    decreases |a|
  {
    if a == [] {
      assert a + b == b;
    } else {
      var ab, x := a + b, a[0];
      assert ab[0] == x && ab[1..] == a[1..] + b;
      RemoveConcat(a[1..], b, c);
      var r1, r2 := Remove(a[1..], c), Remove(b, c);
      assert Remove(ab, c) == if x == c then r1 + r2 else [x] + (r1 + r2);
      assert Remove(a, c) == if x == c then r1 else [x] + r1;
      if x != c {
        ConcatAssoc([x], r1, r2);
      }
    }
  }

  /** A single character is deleted exactly when it is `c`. */
  lemma RemoveChar(x: char, c: char)
    ensures Remove([x], c) == if x == c then [] else [x]
  {
    assert [x][1..] == [];
  }

  /**
   * The length of the longest run of characters satisfying `p` that starts
   * at index `i` (a greedy character-class repetition of a regular expression).
   */
  function Span(s: string, i: nat, p: char -> bool): (n: nat)
    requires i <= |s|
    ensures i + n <= |s|
    ensures forall k :: i <= k < i + n ==> p(s[k])
    ensures i + n == |s| || !p(s[i + n])
    decreases |s| - i
  {
    if i == |s| || !p(s[i]) then 0 else 1 + Span(s, i + 1, p)
  }

  /** A run of `n` characters satisfying `p` that is not followed by another one is what `Span` measures. */
  lemma {:induction false} SpanExact(s: string, i: nat, p: char -> bool, n: nat)
    requires i + n <= |s|
    requires forall k :: i <= k < i + n ==> p(s[k])
    requires i + n == |s| || !p(s[i + n])
    ensures Span(s, i, p) == n
    decreases n
  {
    if n > 0 {
      SpanExact(s, i + 1, p, n - 1);
    }
  }
}
