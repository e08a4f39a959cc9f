/**
 * The site configuration of gatsby-config.js that carries behaviour: the
 * path prefix, the site and feed metadata, and the RSS feed's `setup` and
 * `serialize` callbacks. The `url-join` package is not part of this model;
 * it is passed in as the function `urljoin`, about which nothing is assumed.
 */
module GatsbyConfig {
  import opened Search
  import opened Content

  /** The values read from src/data/site-config. */
  datatype SiteConfig = SiteConfig(
    siteUrl: string,
    pathPrefix: string,
    siteRss: string,
    siteTitle: string,
    siteDescription: string,
    userEmail: string)

  /** `urljoin(...parts)` from the url-join package. */
  type UrlJoin = seq<string> -> string

  /** `config.pathPrefix === '' ? '/' : config.pathPrefix` */
  function PathPrefix(configured: string): (prefix: string)
    ensures prefix != ""
    ensures configured != "" ==> prefix == configured
    ensures configured == "" ==> prefix == "/"
  {
    if configured == "" then "/" else configured
  }

  /** The logo's path, appended to the site URL to form the feed's image URL. */
  const LogoPath: string := "images/amanhimself-logo.png"

  /** `siteMetadata.rssMetadata`: the channel-level fields of the feed. */
  datatype RssMetadata = RssMetadata(
    siteUrl: string,       // site_url
    feedUrl: string,       // feed_url
    title: string,
    description: string,
    imageUrl: string)      // image_url

  /** `siteMetadata` */
  datatype SiteMetadata = SiteMetadata(siteUrl: string, rssMetadata: RssMetadata)

  /**
   * The `siteMetadata` object. Note that it joins the configured path prefix,
   * not the `PathPrefix` that replaces an empty one by "/".
   */
  function BuildSiteMetadata(config: SiteConfig, urljoin: UrlJoin): (m: SiteMetadata)
    ensures m.rssMetadata.siteUrl == m.siteUrl == urljoin([config.siteUrl, config.pathPrefix])
    ensures m.rssMetadata.feedUrl == urljoin([config.siteUrl, config.pathPrefix, config.siteRss])
    ensures |m.rssMetadata.imageUrl| == |m.siteUrl| + |LogoPath|
    ensures m.rssMetadata.imageUrl[..|m.siteUrl|] == m.siteUrl
    ensures m.rssMetadata.imageUrl[|m.siteUrl|..] == LogoPath
    ensures m.rssMetadata.title == config.siteTitle
    ensures m.rssMetadata.description == config.siteDescription
  {
    var siteUrl := urljoin([config.siteUrl, config.pathPrefix]);
    SiteMetadata(
      siteUrl,
      RssMetadata(
        siteUrl,
        urljoin([config.siteUrl, config.pathPrefix, config.siteRss]),
        config.siteTitle,
        config.siteDescription,
        siteUrl + LogoPath))
  }

  /** The feed's `generator` field, set by `setup`. */
  const Generator: string := "Aman Mittal"

  /**
   * The `rssMetadata` object that the feed plugin's query returns and that
   * `setup` decorates in place.
   */
  class RssMetadataObject {
    var siteUrl: string
    var feedUrl: string
    var title: string
    var description: string
    var imageUrl: string
    var allMarkdownRemark: Option<seq<Edge>>
    var generator: Option<string>

    /** The five fields the plugin's query selects. */
    function Queried(): RssMetadata
      reads this
    {
      RssMetadata(siteUrl, feedUrl, title, description, imageUrl)
    }

    /** The object as the query returns it: the queried fields and nothing else. */
    constructor (m: RssMetadata)
      ensures Queried() == m
      ensures allMarkdownRemark == None && generator == None
    {
      siteUrl := m.siteUrl;
      feedUrl := m.feedUrl;
      title := m.title;
      description := m.description;
      imageUrl := m.imageUrl;
      allMarkdownRemark := None;
      generator := None;
    }
  }

  /**
   * `setup(ref)`: adds the markdown query result and the generator to the
   * query's `rssMetadata` object and returns that same object.
   */
  method Setup(rssMetadata: RssMetadataObject, allMarkdownRemark: seq<Edge>) returns (ret: RssMetadataObject)
    modifies rssMetadata
    ensures ret == rssMetadata
    ensures ret.Queried() == old(rssMetadata.Queried())
    ensures ret.allMarkdownRemark == Some(allMarkdownRemark)
    ensures ret.generator == Some(Generator)
  {
    ret := rssMetadata;
    ret.allMarkdownRemark := Some(allMarkdownRemark);
    ret.generator := Some(Generator);
  }

  /** One entry of an item's `custom_elements`: an object with a single key. */
  datatype CustomElement = CustomElement(name: string, value: string)

  /** What `serialize` returns per edge. */
  datatype FeedItem = FeedItem(
    categories: seq<string>,
    date: int,
    title: string,
    description: string,
    url: string,
    guid: string,
    customElements: seq<CustomElement>)   // custom_elements

  function ItemDate(item: FeedItem): int
  {
    item.date
  }

  /** The item `serialize` builds from one edge. */
  function ItemOf(edge: Edge, rss: RssMetadata, userEmail: string): (item: FeedItem)
    ensures item.url == item.guid
    ensures |item.url| == |rss.siteUrl| + |edge.node.slug|
    ensures item.url[..|rss.siteUrl|] == rss.siteUrl && item.url[|rss.siteUrl|..] == edge.node.slug
    ensures item.categories == edge.node.frontmatter.tags
    ensures item.date == edge.node.date
    ensures item.title == edge.node.frontmatter.title
    ensures item.description == edge.node.excerpt
    ensures |item.customElements| == 2
    ensures item.customElements[0] == CustomElement("content:encoded", edge.node.html)
    ensures item.customElements[1] == CustomElement("author", userEmail)
  {
    var link := rss.siteUrl + edge.node.slug;
    FeedItem(
      edge.node.frontmatter.tags,
      edge.node.date,
      edge.node.frontmatter.title,
      edge.node.excerpt,
      link,
      link,
      [CustomElement("content:encoded", edge.node.html), CustomElement("author", userEmail)])
  }

  /** `serialize(ctx)`: one item per edge, in the order of the edges. */
  function Serialize(edges: seq<Edge>, rss: RssMetadata, userEmail: string): (items: seq<FeedItem>)
    ensures |items| == |edges|
    ensures forall i :: 0 <= i < |edges| ==> items[i] == ItemOf(edges[i], rss, userEmail)
  {
    seq(|edges|, i requires 0 <= i < |edges| => ItemOf(edges[i], rss, userEmail))
  }

  /** The `limit` of the feed's `allMarkdownRemark` query. */
  const FeedQueryLimit: nat := 1000

  /**
   * Given what the feed's query promises of its edges, the feed has at most
   * 1000 items, newest first.
   */
  lemma FeedNewestFirst(edges: seq<Edge>, rss: RssMetadata, userEmail: string)
    requires PostsQueryResult(edges, FeedQueryLimit)
    ensures |Serialize(edges, rss, userEmail)| <= FeedQueryLimit
    ensures SortedBy(Serialize(edges, rss, userEmail), ItemDate)
  {
  }

  /** Distinct slugs give distinct guids: the guid identifies the post within the feed. */
  lemma GuidsDistinct(edges: seq<Edge>, rss: RssMetadata, userEmail: string, i: nat, j: nat)
    requires i < |edges| && j < |edges|
    requires edges[i].node.slug != edges[j].node.slug
    ensures Serialize(edges, rss, userEmail)[i].guid != Serialize(edges, rss, userEmail)[j].guid
  {
  }

  /**
   * The link is plain concatenation: a site URL ending in '/' and a slug
   * starting with '/' give a link with "//" at the junction.
   */
  lemma LinkKeepsBothSlashes(edge: Edge, rss: RssMetadata, userEmail: string)
    requires |rss.siteUrl| > 0 && rss.siteUrl[|rss.siteUrl| - 1] == '/'
    requires |edge.node.slug| > 0 && edge.node.slug[0] == '/'
    ensures ItemOf(edge, rss, userEmail).url[|rss.siteUrl| - 1..|rss.siteUrl| + 1] == "//"
  {
  }

  /**
   * With the metadata built from the site configuration, every feed link is the
   * joined site URL followed directly by the post's slug.
   */
  lemma FeedLinksUnderSite(config: SiteConfig, urljoin: UrlJoin, edges: seq<Edge>, i: nat)
    requires i < |edges|
    ensures Serialize(edges, BuildSiteMetadata(config, urljoin).rssMetadata, config.userEmail)[i].url
         == urljoin([config.siteUrl, config.pathPrefix]) + edges[i].node.slug
  {
  }
}
