/** The discovered indexers both Sonarr destinations reconcile: the crate
    root's `Indexer`, `FeedUrls` and `SourceIndexer::name_id()`, which are
    not part of this model and are taken here as plain inputs. */
module Source {
  import opened Seqs
  import opened Znab

  /** A `url::Url`, known only by its serialisation (`Url::to_string`). */
  datatype Url = Url(serialized: string)

  /** A Newznab or Torznab feed: its endpoint, an optional API key and the
      tracker's category list. */
  datatype ZnabFeed = ZnabFeed(url: Url, apiKey: Option<string>, capabilities: seq<Capability>)

  /** The feeds a discovered indexer offers; `rss` is the RSS feed's url. */
  datatype FeedUrls = FeedUrls(newznab: Option<ZnabFeed>, torznab: Option<ZnabFeed>, rss: Option<Url>)

  /** A discovered indexer: display name, the stable identity token
      `source.name_id()` and its feeds. */
  datatype Indexer = Indexer(name: string, nameId: string, urls: FeedUrls)

  /** The feed a reconciliation step works from. */
  datatype ActiveFeed = NewznabFeed(znab: ZnabFeed) | TorznabFeed(znab: ZnabFeed) | RssFeed(url: Url)

  /** The arm of `match indexer.urls` that fires: newznab before torznab
      before rss; `None` is the `_ => continue` arm. */
  function SelectFeed(urls: FeedUrls): (r: Option<ActiveFeed>)
    ensures r.None? <==> urls.newznab.None? && urls.torznab.None? && urls.rss.None?
    ensures urls.newznab.Some? ==> r == Some(NewznabFeed(urls.newznab.value))
    ensures urls.newznab.None? && urls.torznab.Some? ==> r == Some(TorznabFeed(urls.torznab.value))
    ensures urls.newznab.None? && urls.torznab.None? && urls.rss.Some? ==> r == Some(RssFeed(urls.rss.value))
  {
    match urls
    case FeedUrls(Some(feed), _, _) => Some(NewznabFeed(feed))
    case FeedUrls(None, Some(feed), _) => Some(TorznabFeed(feed))
    case FeedUrls(None, None, Some(url)) => Some(RssFeed(url))
    case FeedUrls(None, None, None) => None
  }
}
