/**
 * The tutorials page (`BlogPage` in src/pages/tutorials.js): a search box
 * whose term filters the list of posts by title, and a counter of the posts
 * shown. React's `setState` is modelled as a synchronous assignment followed
 * at once by its callback.
 */
module Tutorials {
  import opened Text
  import opened Search
  import opened Content

  /** The `limit` of the page's `posts` query. */
  const PageQueryLimit: nat := 2000

  class BlogPage {
    var searchTerm: string
    var posts: seq<Edge>
    var filteredPosts: seq<Edge>

    /** The listing shown is always the title filter of all posts by the current term. */
    ghost predicate Valid()
      reads this
    {
      filteredPosts == TitleFilter(posts, EdgeTitle, searchTerm)
    }

    /** The initial state: an empty term, and both lists taken from the query's edges. */
    constructor (edges: seq<Edge>)
      ensures searchTerm == "" && posts == edges && filteredPosts == edges
      ensures Valid()
    {
      searchTerm := "";
      posts := edges;
      filteredPosts := edges;
      EmptyTermKeepsAll(edges, EdgeTitle);
    }

    /** `filterPosts`: recompute the listing from `posts` and `searchTerm`, touching nothing else. */
    method FilterPosts()
      modifies this`filteredPosts
      ensures filteredPosts == TitleFilter(posts, EdgeTitle, searchTerm)
      ensures Valid()
    {
      filteredPosts := TitleFilter(posts, EdgeTitle, searchTerm);
    }

    /**
     * `handleChange` for the search input (its `name` is `searchTerm`): store the
     * new term, then filter again.
     */
    method HandleChange(value: string)
      modifies this
      ensures searchTerm == value && posts == old(posts)
      ensures Valid()
    {
      searchTerm := value;
      FilterPosts();
    }

    /** `filterCount` in `render`: the number of posts listed, never more than there are posts. */
    function FilterCount(): (n: nat)
      reads this
      requires Valid()
      ensures n == |filteredPosts| && n <= |posts|
      ensures searchTerm == "" ==> n == |posts|
    {
      EmptyTermKeepsAll(posts, EdgeTitle);
      |filteredPosts|
    }
  }

  /** The displayed listing keeps the query's guarantees: only posts, newest first, within the limit. */
  lemma ListingKeepsQueryOrder(page: BlogPage)
    requires page.Valid()
    requires PostsQueryResult(page.posts, PageQueryLimit)
    ensures PostsQueryResult(page.filteredPosts, PageQueryLimit)
  {
    FilterKeepsOrder(page.posts, EdgeTitle, page.searchTerm, EdgeDate);
  }

  /** Typing the term in any letter case lists the same posts as typing it in lower case. */
  lemma SearchIsCaseInsensitive(page: BlogPage, other: BlogPage)
    requires page.Valid() && other.Valid()
    requires page.posts == other.posts
    requires ToLower(page.searchTerm) == ToLower(other.searchTerm)
    ensures page.filteredPosts == other.filteredPosts
  {
    FilterIgnoresTermCase(page.posts, EdgeTitle, page.searchTerm);
    FilterIgnoresTermCase(other.posts, EdgeTitle, other.searchTerm);
  }
}
