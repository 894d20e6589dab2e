/** Case-insensitive substring matching, the meaning given here to the
    `{ $regex: q, $options: 'i' }` filters of the book queries, and the
    character classes the input schemas use. */
module Text {

  /** ASCII lower-casing of one character; every other character is left as it is. */
  function LowerChar(c: char): (r: char)
    ensures 'A' <= c <= 'Z' ==> 'a' <= r <= 'z' && r as int - c as int == 32
    ensures !('A' <= c <= 'Z') ==> r == c
  {
    if 'A' <= c <= 'Z' then (c as int + 32) as char else c
  }

  /** A string lower-cased character by character. */
  function Lower(s: string): (r: string)
    ensures |r| == |s|
    ensures forall i :: 0 <= i < |s| ==> r[i] == LowerChar(s[i])
  {
    if s == [] then [] else [LowerChar(s[0])] + Lower(s[1..])
  }

  predicate IsPrefix(p: string, s: string) {
    |p| <= |s| && s[..|p|] == p
  }

  /** `n` occurs in `h` starting at position `k`. */
  predicate OccursAt(n: string, h: string, k: int) {
    0 <= k && k + |n| <= |h| && h[k..k + |n|] == n
  }

  /** `n` occurs somewhere in `h`, decided by trying every start position in turn. */
  predicate IsInfix(n: string, h: string)
    decreases |h|
  {
    IsPrefix(n, h) || (h != [] && IsInfix(n, h[1..]))
  }

  /** An occurrence at any position is found by the search. */
  lemma {:induction false} OccursIsInfix(n: string, h: string, k: int)
    requires OccursAt(n, h, k)
    ensures IsInfix(n, h)
    decreases k
  {
    if k > 0 {
      assert h[1..][k - 1..k - 1 + |n|] == h[k..k + |n|];
      OccursIsInfix(n, h[1..], k - 1);
    }
  }

  /** What the search finds is an occurrence at some position. */
  lemma {:induction false} InfixOccurs(n: string, h: string) returns (k: int)
    requires IsInfix(n, h)
    ensures OccursAt(n, h, k)
    decreases |h|
  {
    if IsPrefix(n, h) {
      k := 0;
    } else {
      var j := InfixOccurs(n, h[1..]);
      assert h[1..][j..j + |n|] == h[j + 1..j + 1 + |n|];
      k := j + 1;
    }
  }

  /** The recursive search finds exactly the occurrences that exist. */
  lemma IsInfixIffOccurs(n: string, h: string)
    ensures IsInfix(n, h) <==> exists k :: OccursAt(n, h, k)
  {
    if IsInfix(n, h) {
      var k := InfixOccurs(n, h);
    }
    if k :| OccursAt(n, h, k) {
      OccursIsInfix(n, h, k);
    }
  }

  /** The empty pattern occurs in every string, so an empty filter value constrains nothing. */
  lemma EmptyIsInfix(h: string)
    ensures IsInfix("", h)
  {
    assert IsPrefix("", h);
  }

  /** Case-insensitive substring test, as a `$regex` with option `i` behaves on a pattern
      without metacharacters. */
  predicate ContainsIgnoreCase(h: string, n: string) {
    IsInfix(Lower(n), Lower(h))
  }

  /** Characters that a regular expression treats specially. */
  const RegexMeta: string := "\\^$.|?*+()[]{}"

  /** A pattern made only of ordinary characters, so that it matches itself literally. */
  predicate NoRegexMeta(s: string) {
    forall i :: 0 <= i < |s| ==> s[i] !in RegexMeta
  }

  predicate IsAsciiAlphanumeric(c: char) {
    'a' <= c <= 'z' || 'A' <= c <= 'Z' || '0' <= c <= '9'
  }

  /** Every character is an ASCII letter or digit (Joi's `alphanum` rule). */
  predicate IsAlphanumeric(s: string) {
    forall i :: 0 <= i < |s| ==> IsAsciiAlphanumeric(s[i])
  }

  /** An example search: "Tolkien" occurs, ignoring case, in "J.R.R. Tolkien". */
  lemma TolkienMatches(author: string, query: string)
    requires author == "J.R.R. Tolkien" && query == "Tolkien"
    ensures ContainsIgnoreCase(author, query)
  {
    var h := Lower(author);
    var n := Lower(query);
    assert |n| == 7 && |h| == 14;
    forall i | 0 <= i < 7 ensures h[7 + i] == n[i] {
      assert author[7 + i] == query[i];
    }
    assert OccursAt(n, h, 7);
    OccursIsInfix(n, h, 7);
  }
}
