/**
 * The case-insensitive title search shared by the tutorials page and the
 * blog listing: keep, in order, the posts whose lower-cased title includes
 * the lower-cased search term.
 */
module Search {
  import opened Text

  /** `a` is obtained from `b` by deleting elements; the order of what is kept is unchanged. */
  ghost predicate IsSubsequence<T>(a: seq<T>, b: seq<T>)
    decreases |b|
  {
    if b == [] then a == []
    else (a != [] && a[0] == b[0] && IsSubsequence(a[1..], b[1..])) || IsSubsequence(a, b[1..])
  }

  /** `s` is in non-increasing order of `key` (newest first, when `key` is a date). */
  ghost predicate SortedBy<T>(s: seq<T>, key: T -> int)
  {
    forall i, j :: 0 <= i < j < |s| ==> key(s[i]) >= key(s[j])
  }

  /** `title.toLowerCase().includes(term.toLowerCase())` */
  predicate Matches(title: string, term: string): (r: bool)
    ensures r ==> |term| <= |title|
    ensures term == "" ==> r
  {
    IncludesEmpty(ToLower(title));
    Includes(ToLower(title), ToLower(term))
  }

  /** `posts.filter(post => titleOf(post).toLowerCase().includes(term.toLowerCase()))` */
  function TitleFilter<T>(posts: seq<T>, titleOf: T -> string, term: string): (r: seq<T>)
    ensures |r| <= |posts|
    ensures forall i :: 0 <= i < |r| ==> r[i] in posts && Matches(titleOf(r[i]), term)
    ensures forall i :: 0 <= i < |posts| && Matches(titleOf(posts[i]), term) ==> posts[i] in r
    ensures IsSubsequence(r, posts)
  {
    if posts == [] then []
    else
      var rest := TitleFilter(posts[1..], titleOf, term);
      if Matches(titleOf(posts[0]), term) then [posts[0]] + rest else rest
  }

  /** Everything kept in a subsequence is taken from the original. */
  lemma {:induction false} SubsequenceMembers<T>(a: seq<T>, b: seq<T>)
    requires IsSubsequence(a, b)
    ensures forall x :: x in a ==> x in b
    decreases |b|
  {
    if b == [] {
    } else if a != [] && a[0] == b[0] && IsSubsequence(a[1..], b[1..]) {
      SubsequenceMembers(a[1..], b[1..]);
      forall x | x in a ensures x in b {
        if x != a[0] {
          assert x in a[1..];
        }
      }
    } else {
      SubsequenceMembers(a, b[1..]);
    }
  }

  /** Deleting elements from a sorted sequence leaves it sorted. */
  lemma {:induction false} SubsequenceKeepsOrder<T>(a: seq<T>, b: seq<T>, key: T -> int)
    requires IsSubsequence(a, b)
    requires SortedBy(b, key)
    ensures SortedBy(a, key)
    decreases |b|
  {
    if b == [] {
    } else {
      assert SortedBy(b[1..], key) by {
        forall i, j | 0 <= i < j < |b[1..]| ensures key(b[1..][i]) >= key(b[1..][j]) {
          assert b[1..][i] == b[i + 1] && b[1..][j] == b[j + 1];
        }
      }
      if a != [] && a[0] == b[0] && IsSubsequence(a[1..], b[1..]) {
        SubsequenceKeepsOrder(a[1..], b[1..], key);
        SubsequenceMembers(a[1..], b[1..]);
        forall i, j | 0 <= i < j < |a| ensures key(a[i]) >= key(a[j]) {
          assert a[j] == a[1..][j - 1];
          if i == 0 {
            assert a[j] in b[1..];
            var k :| 0 <= k < |b[1..]| && b[1..][k] == a[j];
            assert b[k + 1] == a[j];
          } else {
            assert a[i] == a[1..][i - 1];
          }
        }
      } else {
        SubsequenceKeepsOrder(a, b[1..], key);
      }
    }
  }

  /** The filter keeps the order of its input: on a sorted input the result is sorted too. */
  lemma FilterKeepsOrder<T>(posts: seq<T>, titleOf: T -> string, term: string, key: T -> int)
    requires SortedBy(posts, key)
    ensures SortedBy(TitleFilter(posts, titleOf, term), key)
  {
  }

  /** The empty term matches every title, so the filter returns its input unchanged. */
  lemma {:induction false} EmptyTermKeepsAll<T>(posts: seq<T>, titleOf: T -> string)
    ensures TitleFilter(posts, titleOf, "") == posts
  {
    if posts != [] {
      assert ToLower("") == "";
      IncludesEmpty(ToLower(titleOf(posts[0])));
      EmptyTermKeepsAll(posts[1..], titleOf);
      assert [posts[0]] + posts[1..] == posts;
    }
  }

  /** Filtering distributes over concatenation: every matching occurrence is kept, in place. */
  lemma {:induction false} FilterAppend<T>(a: seq<T>, b: seq<T>, titleOf: T -> string, term: string)
    ensures TitleFilter(a + b, titleOf, term) == TitleFilter(a, titleOf, term) + TitleFilter(b, titleOf, term)
  {
    if a == [] {
      assert a + b == b;
    } else {
      assert (a + b)[0] == a[0];
      assert (a + b)[1..] == a[1..] + b;
      FilterAppend(a[1..], b, titleOf, term);
    }
  }

  /** Matching ignores the case of the term: searching for a term or its lower-cased form gives the same posts. */
  lemma {:induction false} FilterIgnoresTermCase<T>(posts: seq<T>, titleOf: T -> string, term: string)
    ensures TitleFilter(posts, titleOf, term) == TitleFilter(posts, titleOf, ToLower(term))
  {
    ToLowerIdempotent(term);
    if posts != [] {
      FilterIgnoresTermCase(posts[1..], titleOf, term);
    }
  }

  /** Filtering a second time by the same term removes nothing more. */
  lemma {:induction false} FilterIdempotent<T>(posts: seq<T>, titleOf: T -> string, term: string)
    ensures TitleFilter(TitleFilter(posts, titleOf, term), titleOf, term) == TitleFilter(posts, titleOf, term)
  {
    if posts != [] {
      FilterIdempotent(posts[1..], titleOf, term);
      var rest := TitleFilter(posts[1..], titleOf, term);
      if Matches(titleOf(posts[0]), term) {
        assert ([posts[0]] + rest)[1..] == rest;
      }
    }
  }
}
