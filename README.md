# Blog search, listing order and RSS feed shaping — a Dafny model

This project models the three pieces of the personal blog/portfolio site that
carry behaviour of their own. The rest of the site is layout, or it runs inside
the site generator's plugins and GraphQL queries.

- **The tutorials page** (`BlogPage` in `src/pages/tutorials.js`). This is a
  component with three state fields: `searchTerm`, `posts` and `filteredPosts`.
  Typing into the search box stores the term and then recomputes
  `filteredPosts`. It keeps the posts whose lower-cased title includes the
  lower-cased term. The page also shows how many posts match.
- **The blog listing** (`Blog` in `pages/blog.js`). On every render the
  imported array of post front-matter is sorted in place, newest first by
  `publishedAt`. It is then filtered by the same title search. The page shows
  a heading with the total number of posts. It shows "No posts found." when
  nothing matches.
- **The feed settings in `gatsby-config.js`**. These are:
  - the `pathPrefix` expression;
  - the `siteMetadata`/`rssMetadata` object;
  - the RSS feed plugin's `setup` callback, which decorates the metadata
    object in place;
  - its `serialize` callback, which maps each markdown edge to a feed item.

Files and modules:

| file | module | what |
|---|---|---|
| `text.dfy` | `Text` | `toLowerCase` (ASCII) and `includes` on `seq<char>` |
| `search.dfy` | `Search` | the shared title filter, subsequences, ordering |
| `content.dfy` | `Content` | the markdown edge/node records and what the posts queries promise |
| `tutorials.dfy` | `Tutorials` | class `BlogPage` with its invariant |
| `blog.dfy` | `BlogListing` | the in-place newest-first sort, the rendered view, class `Blog` |
| `feed.dfy` | `GatsbyConfig` | path prefix, site metadata, `setup`, `serialize` |

The tutorials page is a class whose invariant `Valid()` says that
`filteredPosts == TitleFilter(posts, EdgeTitle, searchTerm)`. The constructor
establishes it. `HandleChange` re-establishes it, and `FilterPosts` changes
only `filteredPosts`.

The blog's sort is an insertion sort on an `array` (`SortInPlace`). It is
proved equal to the specification function `SortNewestFirst`. The lemmas about
that function say that:
- the result is newest first;
- the result is a permutation of the input;
- posts of the same date keep their input order;
- an already sorted input is left as it is.

`SortNewestFirst` places posts with the same date in their original relative
order (`SortIsStable`). A stable sort, which `Array.prototype.sort` is required
to be, gives exactly that result for this comparator.

The feed's `serialize` is a pure map. `url-join` is an external package, so it
is a function parameter (`UrlJoin`) about which nothing is assumed. GraphQL
executes the posts queries (template filter, sort by date, limit), so what they
guarantee is the precondition `PostsQueryResult`.

Three facts about the code that the model keeps as they are:
- feed links are plain concatenation `site_url + slug`, with no slash
  normalisation (`LinkKeepsBothSlashes`);
- posts with the same date keep their input order (`SortIsStable`); nothing
  orders them by slug;
- the code raises no slug-collision or invalid-date errors, so the model has
  none.

## Model

| member | source | states |
|---|---|---|
| Text.LowerChar | src/pages/tutorials.js:25-27 | lower-casing one character leaves no ASCII capital; characters other than 'A'..'Z' are unchanged |
| Text.ToLower | src/pages/tutorials.js:25-27 | `toLowerCase` keeps the length, lower-cases position by position, and leaves no ASCII capital |
| Text.ToLowerIdempotent | src/pages/tutorials.js:25-27 | lower-casing an already lower-cased string changes nothing |
| Text.Includes | src/pages/tutorials.js:27 | `s.includes(t)`: when it holds, `t` is no longer than `s` and every character of `t` occurs in `s` |
| Text.IncludesEmpty | src/pages/tutorials.js:27 | every string `includes` the empty string |
| Search.Matches | pages/blog.js:26 | the title test of the filter: a match needs a term no longer than the title, and the empty term matches every title |
| Search.TitleFilter | src/pages/tutorials.js:24-28 | the filter result is no longer than its input; every kept post is from the input and matches; every matching input post is kept; the result is a subsequence of the input |
| Search.SubsequenceMembers | src/pages/tutorials.js:24 | a subsequence holds only elements of the original |
| Search.SubsequenceKeepsOrder | pages/blog.js:20-27 | a subsequence of a newest-first sequence is newest first |
| Search.FilterKeepsOrder | pages/blog.js:25-27 | filtering a sorted list leaves it sorted (the filter never re-sorts) |
| Search.EmptyTermKeepsAll | src/pages/tutorials.js:27 | the empty term returns the input unchanged, in order |
| Search.FilterAppend | src/pages/tutorials.js:24-28 | filtering distributes over concatenation, so every matching occurrence is kept in place |
| Search.FilterIgnoresTermCase | src/pages/tutorials.js:25-27 | searching for a term or its lower-cased form selects the same posts |
| Search.FilterIdempotent | src/pages/tutorials.js:24-28 | filtering the filtered list again by the same term changes nothing |
| Content.PostsQueryResult | src/pages/tutorials.js:76-79 | what a posts query (here and in the feed, gatsby-config.js:131-134) promises: at most `limit` edges, only `post` templates, newest first by date, so consecutive edges never go up in date |
| Tutorials.BlogPage.constructor | src/pages/tutorials.js:9-13 | initially the term is empty and `posts` and `filteredPosts` are both the query's edges, so the invariant holds |
| Tutorials.BlogPage.FilterPosts | src/pages/tutorials.js:21-31 | `filteredPosts` becomes the title filter of `posts` by `searchTerm`; `posts` and `searchTerm` are unchanged |
| Tutorials.BlogPage.HandleChange | src/pages/tutorials.js:15-19 | the new term is stored, `posts` is unchanged, and the invariant is re-established |
| Tutorials.BlogPage.FilterCount | src/pages/tutorials.js:35 | the count shown is the length of `filteredPosts`, at most the number of posts, and all of them when the term is empty |
| Tutorials.ListingKeepsQueryOrder | src/pages/tutorials.js:74-80 | if `posts` meets the page query's guarantees (only `post` templates, newest first, at most 2000), so does the listing shown |
| Tutorials.SearchIsCaseInsensitive | src/pages/tutorials.js:25-27 | two page states whose terms agree after lower-casing list the same posts |
| BlogListing.Insert | pages/blog.js:21-24 | inserting a post into the sorted list, after every post of the same date, adds one element |
| BlogListing.SortNewestFirst | pages/blog.js:21-24 | the stable newest-first order of the posts has as many posts as the input (its order and permutation are the lemmas below) |
| BlogListing.InsertBounded | pages/blog.js:21-24 | inserting keeps every date at or below a common bound |
| BlogListing.InsertKeepsOrder | pages/blog.js:21-24 | inserting one post into a newest-first list keeps it newest first |
| BlogListing.SortIsNewestFirst | pages/blog.js:21-24 | after the sort no post is older than a post after it |
| BlogListing.InsertPermutes | pages/blog.js:21 | inserting adds exactly one copy of the post |
| BlogListing.SortPermutes | pages/blog.js:21 | the sort is a permutation: the same posts, with the same multiplicities |
| BlogListing.InsertAt | pages/blog.js:21-24 | in a sorted list, a post newer than the tail and no newer than its predecessor is inserted at that index |
| BlogListing.SortPrefixStep | pages/blog.js:21-24 | sorting one more post inserts it into the sorted prefix |
| BlogListing.InsertOldest | pages/blog.js:21-24 | a post no newer than any other goes to the end |
| BlogListing.SortOfSortedIsIdentity | pages/blog.js:21-24 | sorting posts already newest first leaves them in place, so ties keep their order |
| BlogListing.SortIdempotent | pages/blog.js:20-24 | sorting again on the next render does not reorder the posts |
| BlogListing.PublishedOn | pages/blog.js:21-24 | the posts of one date, in order: no more than the input, all of that date |
| BlogListing.PublishedOnAppend | pages/blog.js:21-24 | the posts of one date in a concatenation are those of each part, in order |
| BlogListing.PublishedOnNone | pages/blog.js:21-24 | a list whose posts are all older than a date has none of that date |
| BlogListing.InsertAfterSameDate | pages/blog.js:21-24 | inserting a post into a newest-first list places it after every post of its own date |
| BlogListing.SortIsStable | pages/blog.js:21-24 | the sort is stable: the posts of any one date keep their input order |
| BlogListing.ShiftedIsInsert | pages/blog.js:21 | the array left by one insertion step is the inserted sequence |
| BlogListing.InsertNext | pages/blog.js:21 | one insertion-sort step on the array: the prefix becomes the insertion of the next post; the rest is untouched |
| BlogListing.SortInPlace | pages/blog.js:20-24 | the in-place sort leaves the array equal to the newest-first stable order of its old contents |
| BlogListing.View | pages/blog.js:25-62 | the heading counts every post; the cards are a subsequence of the sorted posts holding exactly the matching ones; "No posts found." shows exactly when no title matches |
| BlogListing.ListingNewestFirst | pages/blog.js:20-27 | the filtered listing is newest first whatever the search, and the heading counts every post |
| BlogListing.EmptySearchListsAll | pages/blog.js:18-27 | with the initial empty search every post is listed in sorted order, and the empty message shows only when there are no posts |
| BlogListing.Blog.constructor | pages/blog.js:18 | the search value starts empty |
| BlogListing.Blog.SetSearchValue | pages/blog.js:45 | the search value becomes the input's value |
| BlogListing.Blog.Render | pages/blog.js:20-43 | a render sorts the shared array in place and shows a newest-first listing whose heading counts the array's length |
| GatsbyConfig.PathPrefix | gatsby-config.js:5 | the prefix is never empty: "" becomes "/", and any other value passes through |
| GatsbyConfig.BuildSiteMetadata | gatsby-config.js:6-17 | `site_url` equals `siteUrl`, the joined site URL and configured prefix; the feed URL joins the RSS path too; `image_url` is `site_url` followed directly by the logo path; title and description come from the configuration |
| GatsbyConfig.RssMetadataObject.constructor | gatsby-config.js:97-111 | the metadata object as the query returns it, with no markdown result and no generator |
| GatsbyConfig.Setup | gatsby-config.js:91-96 | `setup` returns the same object, with the five queried fields unchanged and the markdown result and generator 'Aman Mittal' added |
| GatsbyConfig.ItemOf | gatsby-config.js:116-127 | `url` and `guid` are identical and equal to `site_url` followed directly by the slug; categories, date, title and description are the tags, date, title and excerpt; the custom elements are `content:encoded` = html and then `author` = user e-mail |
| GatsbyConfig.Serialize | gatsby-config.js:114-128 | exactly one item per edge, in the order of the edges |
| GatsbyConfig.FeedNewestFirst | gatsby-config.js:129-135 | if the edges meet the feed query's guarantees, the feed has at most 1000 items, newest first |
| GatsbyConfig.GuidsDistinct | gatsby-config.js:121-122 | posts with different slugs get different guids |
| GatsbyConfig.LinkKeepsBothSlashes | gatsby-config.js:121-122 | no slash normalisation: a site URL ending in '/' and a slug starting with '/' give "//" |
| GatsbyConfig.FeedLinksUnderSite | gatsby-config.js:9 | with the configured metadata, every feed link is the joined site URL followed by the slug |

## Left out

- Rendering (JSX, styled components, Helmet/NextSeo, classnames, `PostListing`, `TWBlogCard`, `allTags`, the category links): presentation with no behaviour.
- `src/pages/index.js`, `src/components/BlogCard.js` and `src/utils/codeblocks/prisma.js` are not part of this model: they hold markup and a GraphQL query only.
- GraphQL execution: filtering by template, sorting by date and limiting. The guarantees are stated as the precondition `PostsQueryResult`. `excerpt(pruneLength: 180)`, `timeToRead`, slug and date derivation, and the `categories` group with its `totalCount` all happen inside plugins; their results are plain fields of the input.
- `url-join`: an external package, passed in as an arbitrary function. No slash-collapsing behaviour is claimed for it.
- Date parsing (`new Date`, `Number`): `publishedAt` and `fields.date` are already-parsed integers. Invalid dates and the NaN comparator results are not modelled.
- Missing titles: every title is a string (`title: string` in `Frontmatter` and `FrontMatter`). A post with no `title` makes `.toLowerCase()` throw a TypeError. In src/pages/tutorials.js:25-26 this happens inside `filterPosts`, on the first keystroke. In pages/blog.js:26 it happens on every render, even with the empty search. `HandleChange`, `EmptySearchListsAll` and `Blog.Render` describe only posts that have titles.
- `toLowerCase` beyond ASCII: only 'A'..'Z' are lower-cased; other Unicode case mappings are not modelled.
- React state: `setState` is a synchronous assignment followed at once by its callback. Batching and asynchrony are not modelled.
- Tutorials.BlogPage.HandleChange: the model takes only the value. The event's `name` is always `searchTerm`, the input's name at src/pages/tutorials.js:60, so writing another state field through it is not modelled.
- The RSS/XML document written by the feed plugin, and the image, analytics, manifest, sitemap and progress-bar plugins: output and build plumbing.
- The page and feed query field lists (`thumbnail`, `frontmatter.date`): no logic of the modelled code reads them.
