/**
 * The blog listing (`Blog` in pages/blog.js): on every render the imported
 * array of post front-matter is sorted in place, newest first, and then
 * filtered by the search value typed into the search box.
 */
module BlogListing {
  import opened Search

  /** The front-matter fields of one post that the listing reads; `publishedAt` is already parsed. */
  datatype FrontMatter = FrontMatter(title: string, publishedAt: int)

  function Title(p: FrontMatter): string
  {
    p.title
  }

  function PublishedAt(p: FrontMatter): int
  {
    p.publishedAt
  }

  /** Newest first: no post is older than one after it. */
  ghost predicate NewestFirst(s: seq<FrontMatter>)
  {
    SortedBy(s, PublishedAt)
  }

  /**
   * Inserts `x` into `s` just before the first post strictly older than `x`,
   * that is, after every post of the same date.
   */
  function Insert(s: seq<FrontMatter>, x: FrontMatter): (r: seq<FrontMatter>)
    ensures |r| == |s| + 1
  {
    if s == [] then [x]
    else if s[0].publishedAt < x.publishedAt then [x] + s
    else [s[0]] + Insert(s[1..], x)
  }

  /** Inserting a post no newer than `bound` into posts no newer than `bound` gives posts no newer than `bound`. */
  lemma {:induction false} InsertBounded(s: seq<FrontMatter>, x: FrontMatter, bound: int)
    requires forall k :: 0 <= k < |s| ==> s[k].publishedAt <= bound
    requires x.publishedAt <= bound
    ensures forall k :: 0 <= k < |Insert(s, x)| ==> Insert(s, x)[k].publishedAt <= bound
  {
    if s != [] && s[0].publishedAt >= x.publishedAt {
      InsertBounded(s[1..], x, bound);
    }
  }

  /** Inserting into a newest-first sequence keeps it newest first. */
  lemma {:induction false} InsertKeepsOrder(s: seq<FrontMatter>, x: FrontMatter)
    requires NewestFirst(s)
    ensures NewestFirst(Insert(s, x))
  {
    if s != [] && s[0].publishedAt >= x.publishedAt {
      var rest := Insert(s[1..], x);
      InsertKeepsOrder(s[1..], x);
      InsertBounded(s[1..], x, s[0].publishedAt);
      var r := [s[0]] + rest;
      forall i, j | 0 <= i < j < |r| ensures r[i].publishedAt >= r[j].publishedAt {
        assert r[j] == rest[j - 1];
        if i > 0 {
          assert r[i] == rest[i - 1];
        }
      }
    }
  }

  /**
   * The order `blogPosts.sort((a, b) => b.publishedAt - a.publishedAt)` produces:
   * newest first, posts of the same date in their original relative order
   * (the sort is stable).
   */
  function SortNewestFirst(s: seq<FrontMatter>): (r: seq<FrontMatter>)
    ensures |r| == |s|
  {
    if s == [] then [] else Insert(SortNewestFirst(s[..|s| - 1]), s[|s| - 1])
  }

  /** The sort's result is newest first. */
  lemma {:induction false} SortIsNewestFirst(s: seq<FrontMatter>)
    ensures NewestFirst(SortNewestFirst(s))
  {
    if s != [] {
      SortIsNewestFirst(s[..|s| - 1]);
      InsertKeepsOrder(SortNewestFirst(s[..|s| - 1]), s[|s| - 1]);
    }
  }

  /** Inserting adds exactly the one post: nothing is lost or duplicated. */
  lemma {:induction false} InsertPermutes(s: seq<FrontMatter>, x: FrontMatter)
    ensures multiset(Insert(s, x)) == multiset(s) + multiset{x}
  {
    if s != [] && s[0].publishedAt >= x.publishedAt {
      InsertPermutes(s[1..], x);
      assert s == [s[0]] + s[1..];
    }
  }

  /** The sort is a permutation: the same posts, each as many times as before. */
  lemma {:induction false} SortPermutes(s: seq<FrontMatter>)
    ensures multiset(SortNewestFirst(s)) == multiset(s)
  {
    if s != [] {
      var init := s[..|s| - 1];
      SortPermutes(init);
      InsertPermutes(SortNewestFirst(init), s[|s| - 1]);
      assert s == init + [s[|s| - 1]];
    }
  }

  /**
   * In a newest-first `s`, a post newer than `s[j..]` and no newer than `s[j - 1]`
   * is inserted at index `j`.
   */
  lemma {:induction false} InsertAt(s: seq<FrontMatter>, x: FrontMatter, j: nat)
    requires NewestFirst(s)
    requires j <= |s|
    requires j == 0 || s[j - 1].publishedAt >= x.publishedAt
    requires forall k :: j <= k < |s| ==> s[k].publishedAt < x.publishedAt
    ensures Insert(s, x) == s[..j] + [x] + s[j..]
  {
    if s == [] {
    } else if j == 0 {
      assert s[..0] == [] && s[0..] == s;
    } else {
      assert s[0].publishedAt >= x.publishedAt;
      assert NewestFirst(s[1..]) by {
        forall a, b | 0 <= a < b < |s[1..]| ensures s[1..][a].publishedAt >= s[1..][b].publishedAt {
          assert s[1..][a] == s[a + 1] && s[1..][b] == s[b + 1];
        }
      }
      InsertAt(s[1..], x, j - 1);
      assert s[1..][..j - 1] == s[1..j];
      assert s[1..][j - 1..] == s[j..];
      assert s[..j] == [s[0]] + s[1..j];
    }
  }

  /** The sort of a prefix one longer inserts the next post into the sort of the prefix. */
  lemma SortPrefixStep(s: seq<FrontMatter>, i: nat)
    requires i < |s|
    ensures SortNewestFirst(s[..i + 1]) == Insert(SortNewestFirst(s[..i]), s[i])
  {
    assert s[..i + 1][..i] == s[..i];
  }

  /** A post no newer than any of `s` goes to the end. */
  lemma {:induction false} InsertOldest(s: seq<FrontMatter>, x: FrontMatter)
    requires forall k :: 0 <= k < |s| ==> s[k].publishedAt >= x.publishedAt
    ensures Insert(s, x) == s + [x]
  {
    if s != [] {
      InsertOldest(s[1..], x);
      assert s == [s[0]] + s[1..];
    }
  }

  /** Sorting posts that are already newest first leaves them where they are. */
  lemma {:induction false} SortOfSortedIsIdentity(s: seq<FrontMatter>)
    requires NewestFirst(s)
    ensures SortNewestFirst(s) == s
  {
    if s != [] {
      var init, last := s[..|s| - 1], s[|s| - 1];
      assert NewestFirst(init) by {
        forall i, j | 0 <= i < j < |init| ensures init[i].publishedAt >= init[j].publishedAt {
          assert init[i] == s[i] && init[j] == s[j];
        }
      }
      SortOfSortedIsIdentity(init);
      forall k | 0 <= k < |init| ensures init[k].publishedAt >= last.publishedAt {
        assert init[k] == s[k];
      }
      InsertOldest(init, last);
      assert s == init + [last];
    }
  }

  /** Sorting twice gives the same order as sorting once: re-rendering does not reshuffle the posts. */
  lemma SortIdempotent(s: seq<FrontMatter>)
    ensures SortNewestFirst(SortNewestFirst(s)) == SortNewestFirst(s)
  {
    SortIsNewestFirst(s);
    SortOfSortedIsIdentity(SortNewestFirst(s));
  }

  /** The posts of `s` published at `date`, in their order in `s`. */
  ghost function PublishedOn(s: seq<FrontMatter>, date: int): (r: seq<FrontMatter>)
    ensures |r| <= |s|
    ensures forall k :: 0 <= k < |r| ==> r[k].publishedAt == date
  {
    if s == [] then []
    else (if s[0].publishedAt == date then [s[0]] else []) + PublishedOn(s[1..], date)
  }

  lemma {:induction false} PublishedOnAppend(a: seq<FrontMatter>, b: seq<FrontMatter>, date: int)
    ensures PublishedOn(a + b, date) == PublishedOn(a, date) + PublishedOn(b, date)
  {
    if a == [] {
      assert a + b == b;
    } else {
      assert (a + b)[1..] == a[1..] + b;
      PublishedOnAppend(a[1..], b, date);
    }
  }

  lemma {:induction false} PublishedOnNone(s: seq<FrontMatter>, date: int)
    requires forall k :: 0 <= k < |s| ==> s[k].publishedAt < date
    ensures PublishedOn(s, date) == []
  {
    if s != [] {
      PublishedOnNone(s[1..], date);
    }
  }

  /** Inserting `x` into a newest-first list puts it after every post of its own date. */
  lemma {:induction false} InsertAfterSameDate(s: seq<FrontMatter>, x: FrontMatter, date: int)
    requires NewestFirst(s)
    ensures PublishedOn(Insert(s, x), date)
         == PublishedOn(s, date) + (if x.publishedAt == date then [x] else [])
  {
    if s == [] {
    } else if s[0].publishedAt < x.publishedAt {
      if x.publishedAt == date {
        PublishedOnNone(s, date);
      }
      assert ([x] + s)[1..] == s;
    } else {
      assert NewestFirst(s[1..]) by {
        forall i, j | 0 <= i < j < |s[1..]| ensures s[1..][i].publishedAt >= s[1..][j].publishedAt {
          assert s[1..][i] == s[i + 1] && s[1..][j] == s[j + 1];
        }
      }
      InsertAfterSameDate(s[1..], x, date);
      assert ([s[0]] + Insert(s[1..], x))[1..] == Insert(s[1..], x);
    }
  }

  /**
   * The sort is stable: the posts of any one date appear in the sorted result
   * in the same order as in the input.
   */
  lemma {:induction false} SortIsStable(s: seq<FrontMatter>, date: int)
    ensures PublishedOn(SortNewestFirst(s), date) == PublishedOn(s, date)
  {
    if s != [] {
      var init, last := s[..|s| - 1], s[|s| - 1];
      SortIsStable(init, date);
      SortIsNewestFirst(init);
      InsertAfterSameDate(SortNewestFirst(init), last, date);
      PublishedOnAppend(init, [last], date);
      assert s == init + [last];
    }
  }

  /**
   * The array contents the insertion step leaves behind — the first `j` posts in
   * place, `x` at `j`, the rest shifted one slot right — are `Insert(done, x)`.
   */
  lemma ShiftedIsInsert(done: seq<FrontMatter>, x: FrontMatter, j: nat, r: seq<FrontMatter>)
    requires NewestFirst(done)
    requires j <= |done| && |r| == |done| + 1
    requires j == 0 || done[j - 1].publishedAt >= x.publishedAt
    requires forall k :: j <= k < |done| ==> done[k].publishedAt < x.publishedAt
    requires forall k :: 0 <= k < j ==> r[k] == done[k]
    requires r[j] == x
    requires forall k :: j < k < |r| ==> r[k] == done[k - 1]
    ensures r == Insert(done, x)
  {
    InsertAt(done, x, j);
    var placed := done[..j] + [x] + done[j..];
    forall k | 0 <= k < |r| ensures r[k] == placed[k] {
      if k < j {
        assert placed[k] == done[k];
      } else if k > j {
        assert placed[k] == done[k - 1];
      }
    }
  }

  /**
   * One step of the insertion sort: with `a[..i]` already newest first, moves
   * `a[i]` to its place among them, shifting the older posts one slot right.
   */
  method InsertNext(a: array<FrontMatter>, i: nat)
    requires i < a.Length
    requires NewestFirst(a[..i])
    modifies a
    ensures a[..i + 1] == Insert(old(a[..i]), old(a[i]))
    ensures forall k :: i < k < a.Length ==> a[k] == old(a[k])
  {
    var x := a[i];
    ghost var done := a[..i];
    var j := i;
    while j > 0 && a[j - 1].publishedAt < x.publishedAt
      invariant 0 <= j <= i
      invariant forall k :: 0 <= k < j ==> a[k] == done[k]
      invariant forall k :: j < k <= i ==> a[k] == done[k - 1]
      invariant forall k :: j <= k < i ==> done[k].publishedAt < x.publishedAt
      invariant forall k :: i < k < a.Length ==> a[k] == old(a[k])
    {
      a[j] := a[j - 1];
      j := j - 1;
    }
    a[j] := x;
    ShiftedIsInsert(done, x, j, a[..i + 1]);
  }

  /** `blogPosts.sort(...)`: sorts the array in place, newest first (an insertion sort). */
  method SortInPlace(a: array<FrontMatter>)
    modifies a
    ensures a[..] == SortNewestFirst(old(a[..]))
  {
    ghost var input := a[..];
    var i := 0;
    while i < a.Length
      invariant 0 <= i <= a.Length
      invariant a[..i] == SortNewestFirst(input[..i])
      invariant forall k :: i <= k < a.Length ==> a[k] == input[k]
    {
      SortIsNewestFirst(input[..i]);
      InsertNext(a, i);
      SortPrefixStep(input, i);
      i := i + 1;
    }
    assert a[..] == a[..a.Length] && input == input[..a.Length];
  }

  /** What the component renders for a given (already sorted) array and search value. */
  datatype BlogView = BlogView(
    headingCount: nat,             // `Blog Posts - {blogPosts.length}`
    posts: seq<FrontMatter>,       // `filteredBlogPosts`, one card each
    noPostsFound: bool)            // whether 'No posts found.' is shown

  /** The filter and the render conditions applied to the array after sorting. */
  function View(blogPosts: seq<FrontMatter>, searchValue: string): (v: BlogView)
    ensures v.headingCount == |blogPosts|
    ensures IsSubsequence(v.posts, blogPosts)
    ensures forall i :: 0 <= i < |v.posts| ==> Matches(v.posts[i].title, searchValue)
    ensures forall i :: 0 <= i < |blogPosts| && Matches(blogPosts[i].title, searchValue) ==> blogPosts[i] in v.posts
    ensures v.noPostsFound <==> forall i :: 0 <= i < |blogPosts| ==> !Matches(blogPosts[i].title, searchValue)
  {
    var filtered := TitleFilter(blogPosts, Title, searchValue);
    assert filtered != [] ==> filtered[0] in blogPosts;
    BlogView(|blogPosts|, filtered, |filtered| == 0)
  }

  /** After the sort the listing is newest first, whatever the search, and the heading counts every post. */
  lemma ListingNewestFirst(blogPosts: seq<FrontMatter>, searchValue: string)
    ensures SortedBy(View(SortNewestFirst(blogPosts), searchValue).posts, PublishedAt)
    ensures View(SortNewestFirst(blogPosts), searchValue).headingCount == |blogPosts|
  {
    SortIsNewestFirst(blogPosts);
    FilterKeepsOrder(SortNewestFirst(blogPosts), Title, searchValue, PublishedAt);
  }

  /** With the initial empty search every post is listed, newest first; the empty message shows only when there are none. */
  lemma EmptySearchListsAll(blogPosts: seq<FrontMatter>)
    ensures View(SortNewestFirst(blogPosts), "").posts == SortNewestFirst(blogPosts)
    ensures View(SortNewestFirst(blogPosts), "").noPostsFound <==> blogPosts == []
  {
    EmptyTermKeepsAll(SortNewestFirst(blogPosts), Title);
  }

  /** The component: the imported array of posts and the `searchValue` state cell. */
  class Blog {
    const blogPosts: array<FrontMatter>
    var searchValue: string

    /** `useState('')` */
    constructor (posts: array<FrontMatter>)
      ensures blogPosts == posts && searchValue == ""
    {
      blogPosts := posts;
      searchValue := "";
    }

    /** `onChange={e => setSearchValue(e.target.value)}` */
    method SetSearchValue(value: string)
      modifies this
      ensures searchValue == value
    {
      searchValue := value;
    }

    /** One render: sort the shared array in place, then filter it by the search value. */
    method Render() returns (v: BlogView)
      modifies blogPosts
      ensures blogPosts[..] == SortNewestFirst(old(blogPosts[..]))
      ensures v == View(blogPosts[..], searchValue)
      ensures v.headingCount == blogPosts.Length
      ensures SortedBy(v.posts, PublishedAt)
    {
      ghost var before := blogPosts[..];
      SortInPlace(blogPosts);
      v := View(blogPosts[..], searchValue);
      SortIsNewestFirst(before);
      FilterKeepsOrder(blogPosts[..], Title, searchValue, PublishedAt);
    }
  }
}
