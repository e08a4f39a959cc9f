/**
 * The shape of the markdown records that the site's GraphQL queries return
 * (`allMarkdownRemark.edges[i].node`), and what those queries guarantee about
 * their results. The queries are run by the site generator, so their
 * guarantees are stated as a predicate on the result rather than computed.
 */
module Content {
  import opened Search

  datatype Option<T> = None | Some(value: T)

  /** `node.frontmatter`: the metadata block written by the author. */
  datatype Frontmatter = Frontmatter(
    title: string,
    tags: seq<string>,
    categories: seq<string>,
    template: string)

  /**
   * `node`: one markdown document. `slug` and `date` are `node.fields`, derived
   * by the generator; `date` is the already-parsed publication date; `html` is
   * the rendered body, carried as an opaque string.
   */
  datatype MarkdownNode = MarkdownNode(
    slug: string,
    date: int,
    excerpt: string,
    html: string,
    timeToRead: nat,
    frontmatter: Frontmatter)

  /** One element of `allMarkdownRemark.edges`. */
  datatype Edge = Edge(node: MarkdownNode)

  function EdgeTitle(e: Edge): string
  {
    e.node.frontmatter.title
  }

  function EdgeDate(e: Edge): int
  {
    e.node.date
  }

  /**
   * What `allMarkdownRemark(limit: limit, sort: {fields: [fields___date], order: DESC},
   * filter: {frontmatter: {template: {eq: "post"}}})` promises of its edges.
   */
  ghost predicate PostsQueryResult(edges: seq<Edge>, limit: nat): (r: bool)
    ensures r ==> |edges| <= limit
    ensures r ==> forall i :: 0 < i < |edges| ==> EdgeDate(edges[i - 1]) >= EdgeDate(edges[i])
  {
    && |edges| <= limit
    && (forall i :: 0 <= i < |edges| ==> edges[i].node.frontmatter.template == "post")
    && SortedBy(edges, EdgeDate)
  }
}
