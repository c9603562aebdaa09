/** The per-site part of `fetch_news` in main.py: fetching a feed with the
    localized-then-canonical fallback, taking the first two entries,
    and normalizing each titled entry into a news item.

    The feed library is an uninterpreted `Parser`: given a URL it either
    returns the feed's entries in feed order or raises an error. What
    handling one entry may raise is an uninterpreted `Fault`. */
module Feeds {
  import opened Wrappers
  import Localization
  import Markup

  // ---------------------------------------------------------------------
  // Data model
  // ---------------------------------------------------------------------

  /** A configured news source: one record of the site list. */
  datatype Site = Site(name: string, url: string, description: string)

  /** The `subtitle_detail` record of an entry; its `value` may be absent. */
  datatype Detail = Detail(value: Option<string>)

  /** A raw feed entry as the feed library returns it. Every field may be
      missing; each element of `tags` is an opaque string standing for a tag record. */
  datatype Entry = Entry(
    title: Option<string>,
    summary: Option<string>,
    description: Option<string>,
    subtitle: Option<string>,
    subtitleDetail: Option<Detail>,
    link: Option<string>,
    published: Option<string>,
    author: Option<string>,
    tags: Option<seq<string>>,
    category: Option<string>)

  /** The `categories` value of an article: the entry's tag list, or its
      single `category` string when it has no tags. */
  datatype Categories = TagList(tags: seq<string>) | CategoryText(category: string)

  /** The `source` part of a news item. `ptUrl` is the resolved localized URL. */
  datatype Source = Source(name: string, url: string, ptUrl: string, description: string)

  /** The `article` part of a news item. */
  datatype Article = Article(
    title: string,
    subtitle: string,
    summary: string,
    link: string,
    published: string,
    author: string,
    categories: Categories)

  /** The `metadata` part of a news item. */
  datatype Metadata = Metadata(fetchDate: string, language: string)

  /** One normalized news item, the unit the run produces. */
  datatype NewsItem = NewsItem(source: Source, article: Article, metadata: Metadata)

  /** The feed library: the entries of the feed at a URL, or the error it raised. */
  type Parser = string -> Result<seq<Entry>, string>

  // ---------------------------------------------------------------------
  // Field extraction
  // ---------------------------------------------------------------------

  /** `entry.get(key, '')`: a string field, empty when absent. */
  function Text(field: Option<string>): string {
    field.GetOr("")
  }

  /** The entry has a non-empty title, so it yields a news item. */
  predicate Titled(e: Entry) {
    Text(e.title) != ""
  }

  /** Cleaning applied only to non-empty text, as at main.py:84-85 and 89-90. */
  function CleanIfPresent(s: string): string {
    if s != "" then Markup.CleanHtml(s) else s
  }

  /** The raw summary: `summary`, or `description` when that is empty or absent. */
  function RawSummary(e: Entry): string {
    if Text(e.summary) != "" then Text(e.summary) else Text(e.description)
  }

  /** The raw subtitle: `subtitle`, or the `value` of `subtitle_detail`. */
  function RawSubtitle(e: Entry): string {
    if Text(e.subtitle) != "" then Text(e.subtitle)
    else
      match e.subtitleDetail
      case Some(d) => Text(d.value)
      case None => ""
  }

  /** `entry.get('tags', []) or entry.get('category', [])`. */
  function CategoriesOf(e: Entry): Categories {
    var tags := e.tags.GetOr([]);
    if tags != [] then TagList(tags)
    else
      match e.category
      case Some(c) => CategoryText(c)
      case None => TagList([])
  }

  /** The language label: Portuguese exactly when localization changed the URL. */
  function Language(ptUrl: string, url: string): string {
    if ptUrl != url then "pt" else "en"
  }

  // ---------------------------------------------------------------------
  // Normalization of one entry
  // ---------------------------------------------------------------------

  /** The news item an entry yields for `site`, whose feed was resolved to
      `ptUrl`; `None` when the entry's title is empty or absent. */
  function Normalize(site: Site, ptUrl: string, fetchDate: string, e: Entry): (r: Option<NewsItem>)
    ensures r.Some? <==> e.title.Some? && e.title.value != ""
    ensures r.Some? ==> && r.value.article.title == e.title.value
                        && r.value.source == Source(site.name, site.url, ptUrl, site.description)
                        && (r.value.metadata.language == "pt" <==> ptUrl != site.url)
                        && (r.value.metadata.language == "pt" || r.value.metadata.language == "en")
                        && r.value.metadata.fetchDate == fetchDate
    ensures r.Some? ==> Markup.Cleaned(r.value.article.summary) && Markup.Cleaned(r.value.article.subtitle)
  {
    var title := Text(e.title);
    if title == "" then None
    else
      var summary := CleanIfPresent(RawSummary(e));
      var subtitle := CleanIfPresent(RawSubtitle(e));
      Markup.CleanHtmlEmpty();
      Some(NewsItem(
        Source(site.name, site.url, ptUrl, site.description),
        Article(title, subtitle, summary, Text(e.link), Text(e.published), Text(e.author), CategoriesOf(e)),
        Metadata(fetchDate, Language(ptUrl, site.url))))
  }

  /** How an article's fields are filled from the entry: the summary from
      `summary`, else `description`; the subtitle from `subtitle`, else the
      `value` of `subtitle_detail`; link, date and author verbatim or empty;
      categories from `tags`, else `category`, else the empty list. */
  lemma NormalizeFields(site: Site, ptUrl: string, fetchDate: string, e: Entry)
    requires Titled(e)
    ensures var n := Normalize(site, ptUrl, fetchDate, e).value;
      // summary: `summary`, else `description`
      && (e.summary.Some? && e.summary.value != "" ==>
            n.article.summary == Markup.CleanHtml(e.summary.value))
      && (e.summary.None? || e.summary.value == "" ==>
            n.article.summary == Markup.CleanHtml(e.description.GetOr("")))
      // subtitle: `subtitle`, else `subtitle_detail.value`, else empty
      && (e.subtitle.Some? && e.subtitle.value != "" ==>
            n.article.subtitle == Markup.CleanHtml(e.subtitle.value))
      && ((e.subtitle.None? || e.subtitle.value == "") && e.subtitleDetail.Some? ==>
            n.article.subtitle == Markup.CleanHtml(e.subtitleDetail.value.value.GetOr("")))
      && ((e.subtitle.None? || e.subtitle.value == "") && e.subtitleDetail.None? ==>
            n.article.subtitle == "")
      // verbatim fields, empty when absent
      && n.article.link == e.link.GetOr("")
      && n.article.published == e.published.GetOr("")
      && n.article.author == e.author.GetOr("")
      // categories: `tags`, else `category`, else the empty list
      && (e.tags.Some? && e.tags.value != [] ==> n.article.categories == TagList(e.tags.value))
      && ((e.tags.None? || e.tags.value == []) && e.category.Some? ==>
            n.article.categories == CategoryText(e.category.value))
      && ((e.tags.None? || e.tags.value == []) && e.category.None? ==>
            n.article.categories == TagList([]))
  {
    Markup.CleanHtmlEmpty();
  }

  /** The items a list of entries yields, in entry order, untitled entries skipped. */
  function Items(site: Site, ptUrl: string, fetchDate: string, es: seq<Entry>): (items: seq<NewsItem>)
    ensures |items| == CountTitled(es)
  {
    if es == [] then []
    else Keep(Normalize(site, ptUrl, fetchDate, es[0])) + Items(site, ptUrl, fetchDate, es[1..])
  }

  /** The item an entry yields, if any, as a list of at most one. */
  function Keep(o: Option<NewsItem>): seq<NewsItem> {
    if o.Some? then [o.value] else []
  }

  /** Every item is titled and carries the site's source and language. */
  lemma {:induction false} ItemsShape(site: Site, ptUrl: string, fetchDate: string, es: seq<Entry>)
    ensures forall item :: item in Items(site, ptUrl, fetchDate, es) ==>
              && item.article.title != ""
              && item.source == Source(site.name, site.url, ptUrl, site.description)
              && (item.metadata.language == "pt" <==> ptUrl != site.url)
  {
    if es != [] {
      ItemsShape(site, ptUrl, fetchDate, es[1..]);
      var head := Keep(Normalize(site, ptUrl, fetchDate, es[0]));
      var rest := Items(site, ptUrl, fetchDate, es[1..]);
      assert forall item :: item in head + rest ==> item in head || item in rest;
    }
  }

  /** Number of titled entries in `es`. */
  function CountTitled(es: seq<Entry>): nat {
    if es == [] then 0
    else (if Titled(es[0]) then 1 else 0) + CountTitled(es[1..])
  }

  /** Items of consecutive runs of entries are concatenated in feed order. */
  lemma {:induction false} ItemsAppend(site: Site, ptUrl: string, fetchDate: string, a: seq<Entry>, b: seq<Entry>)
    ensures Items(site, ptUrl, fetchDate, a + b)
         == Items(site, ptUrl, fetchDate, a) + Items(site, ptUrl, fetchDate, b)
  {
    if a == [] {
      assert a + b == b;
    } else {
      assert (a + b)[0] == a[0] && (a + b)[1..] == a[1..] + b;
      ItemsAppend(site, ptUrl, fetchDate, a[1..], b);
    }
  }

  // ---------------------------------------------------------------------
  // Fetching with fallback
  // ---------------------------------------------------------------------

  /** The feed a site was read from: the resolved localized URL, the URLs
      requested in order, and what the last request produced. */
  datatype Fetch = Fetch(ptUrl: string, requested: seq<string>, feed: Result<seq<Entry>, string>)

  /** main.py:66-72: parse the localized feed; only when it parses to no
      entries at all, parse the canonical URL instead. */
  function FetchFeed(site: Site, parse: Parser): (f: Fetch)
    ensures f.ptUrl == Localization.PortugueseFeedUrl(site.url)
    ensures 1 <= |f.requested| <= 2 && f.requested[0] == f.ptUrl
    ensures |f.requested| == 2 <==> parse(f.ptUrl) == Success([])
    ensures |f.requested| == 2 ==> f.requested[1] == site.url
    ensures f.feed == parse(f.requested[|f.requested| - 1])
  {
    var ptUrl := Localization.PortugueseFeedUrl(site.url);
    var feed := parse(ptUrl);
    if feed == Success([]) then Fetch(ptUrl, [ptUrl, site.url], parse(site.url))
    else Fetch(ptUrl, [ptUrl], feed)
  }

  // ---------------------------------------------------------------------
  // One site
  // ---------------------------------------------------------------------

  /** What one iteration of the site loop contributes: the items it appended
      and, when it stopped on an exception, that exception. */
  datatype SiteOutcome = SiteOutcome(items: seq<NewsItem>, error: Option<string>)

  /** What handling a titled entry raises before its item is appended, if
      anything: printing its title to the console (main.py:80), or cleaning
      a summary or subtitle that is not text (main.py:85, 90). */
  type Fault = Entry -> Option<string>

  /** Handling entry `e` raises: it has a title, so it is printed and
      cleaned, and that raised. */
  predicate Raises(fault: Fault, e: Entry) {
    Titled(e) && fault(e).Some?
  }

  /** The first two entries, in feed order (`feed.entries[:2]`). */
  function FirstTwo(es: seq<Entry>): (r: seq<Entry>)
    ensures |r| == if |es| < 2 then |es| else 2
    ensures r == es[..|r|]
  {
    if |es| <= 2 then es else es[..2]
  }

  /** Index of the first entry whose handling raises, or `|es|` when none does. */
  function FirstFault(fault: Fault, es: seq<Entry>): (k: nat)
    ensures k <= |es|
    ensures forall j :: 0 <= j < k ==> !Raises(fault, es[j])
    ensures k < |es| ==> Raises(fault, es[k])
  {
    if es == [] || Raises(fault, es[0]) then 0
    else 1 + FirstFault(fault, es[1..])
  }

  /** The body of the site loop, main.py:62-117: fetch with fallback, keep
      the first two entries, normalize each titled one and append it. The
      feed request can raise before anything is appended; handling an entry
      can raise after the items of the entries before it were appended,
      and those items stay. */
  function ProcessSite(site: Site, parse: Parser, fault: Fault, fetchDate: string): (o: SiteOutcome)
    ensures FetchFeed(site, parse).feed.Failure? ==>
              o == SiteOutcome([], Some(FetchFeed(site, parse).feed.error))
    ensures var feed := FetchFeed(site, parse).feed;
            o.error.Some? <==>
              || feed.Failure?
              || (|feed.value| >= 1 && Raises(fault, feed.value[0]))
              || (|feed.value| >= 2 && Raises(fault, feed.value[1]))
    ensures |o.items| <= 2
    ensures forall i :: 0 <= i < |o.items| ==> o.items[i].article.title != ""
    ensures forall i :: 0 <= i < |o.items| ==>
              o.items[i].source == Source(site.name, site.url, FetchFeed(site, parse).ptUrl, site.description)
    ensures forall i :: 0 <= i < |o.items| ==>
              (o.items[i].metadata.language == "pt" <==> FetchFeed(site, parse).ptUrl != site.url)
  {
    var f := FetchFeed(site, parse);
    match f.feed
    case Failure(e) => SiteOutcome([], Some(e))
    case Success(entries) =>
      var first := FirstTwo(entries);
      var k := FirstFault(fault, first);
      var done := first[..k];
      assert CountTitled(done) <= |done| by { CountTitledBound(done); }
      var items := Items(site, f.ptUrl, fetchDate, done);
      ItemsShape(site, f.ptUrl, fetchDate, done);
      assert forall i :: 0 <= i < |items| ==> items[i] in items;
      SiteOutcome(items, if k < |first| then fault(first[k]) else None)
  }

  /** At most every entry is titled. */
  lemma {:induction false} CountTitledBound(es: seq<Entry>)
    ensures CountTitled(es) <= |es|
  {
    if es != [] {
      CountTitledBound(es[1..]);
    }
  }

  // ---------------------------------------------------------------------
  // Properties of the site step
  // ---------------------------------------------------------------------

  /** The localized feed is requested first; the canonical URL is requested
      only when the localized feed parsed to zero entries. A non-empty
      localized feed is used as it is, and an error on the localized
      request is not retried against the canonical URL. */
  lemma FallbackOrder(site: Site, parse: Parser)
    ensures var pt := Localization.PortugueseFeedUrl(site.url);
            var f := FetchFeed(site, parse);
            && (parse(pt) == Success([]) ==> f.requested == [pt, site.url] && f.feed == parse(site.url))
            && (parse(pt) != Success([]) ==> f.requested == [pt] && f.feed == parse(pt))
  {
  }

  /** When no entry's handling raises, a site's items are what its feed's
      first entry yields followed by what its second yields, each one item
      or none, and the site reports no error. */
  lemma ItemsComeFromFirstTwo(site: Site, parse: Parser, fault: Fault, fetchDate: string)
    requires FetchFeed(site, parse).feed.Success?
    requires var es := FetchFeed(site, parse).feed.value;
             forall j :: 0 <= j < |es| && j < 2 ==> !Raises(fault, es[j])
    ensures var o := ProcessSite(site, parse, fault, fetchDate);
            var f := FetchFeed(site, parse);
            var es := f.feed.value;
            && o.error == None
            && (|es| == 0 ==> o.items == [])
            && (|es| == 1 ==> o.items == Keep(Normalize(site, f.ptUrl, fetchDate, es[0])))
            && (|es| >= 2 ==> o.items == Keep(Normalize(site, f.ptUrl, fetchDate, es[0]))
                                         + Keep(Normalize(site, f.ptUrl, fetchDate, es[1])))
  {
    var f := FetchFeed(site, parse);
    var es := f.feed.value;
    var first := FirstTwo(es);
    assert FirstFault(fault, first) == |first|;
    assert first[..|first|] == first;
    if |es| >= 2 {
      ItemsOfPair(site, f.ptUrl, fetchDate, es[0], es[1]);
      assert first == [es[0], es[1]];
    } else if |es| == 1 {
      ItemsSingle(site, f.ptUrl, fetchDate, es[0]);
      assert first == [es[0]];
    }
  }

  /** When handling the second entry raises, the item of the first entry,
      already appended, stays, and the site reports the exception. */
  lemma SecondEntryRaises(site: Site, parse: Parser, fault: Fault, fetchDate: string)
    requires FetchFeed(site, parse).feed.Success?
    requires var es := FetchFeed(site, parse).feed.value;
             |es| >= 2 && !Raises(fault, es[0]) && Raises(fault, es[1])
    ensures var o := ProcessSite(site, parse, fault, fetchDate);
            var f := FetchFeed(site, parse);
            var es := f.feed.value;
            && o.items == Keep(Normalize(site, f.ptUrl, fetchDate, es[0]))
            && o.error == fault(es[1])
  {
    var f := FetchFeed(site, parse);
    var es := f.feed.value;
    var first := FirstTwo(es);
    assert first == [es[0], es[1]];
    assert FirstFault(fault, first[1..]) == 0;
    assert first[..1] == [es[0]];
    ItemsSingle(site, f.ptUrl, fetchDate, es[0]);
  }

  /** When handling the first entry raises, the site contributes no items. */
  lemma FirstEntryRaises(site: Site, parse: Parser, fault: Fault, fetchDate: string)
    requires FetchFeed(site, parse).feed.Success?
    requires var es := FetchFeed(site, parse).feed.value; |es| >= 1 && Raises(fault, es[0])
    ensures var o := ProcessSite(site, parse, fault, fetchDate);
            o.items == [] && o.error == fault(FetchFeed(site, parse).feed.value[0])
  {
    var es := FetchFeed(site, parse).feed.value;
    assert FirstTwo(es)[0] == es[0];
  }

  /** A feed whose first two entries both have titles, and whose handling
      does not raise, yields exactly those two entries as items, in feed order. */
  lemma TwoTitledEntriesGiveTwoItems(site: Site, parse: Parser, fault: Fault, fetchDate: string)
    requires FetchFeed(site, parse).feed.Success?
    requires var es := FetchFeed(site, parse).feed.value;
             && |es| >= 2 && Titled(es[0]) && Titled(es[1])
             && fault(es[0]).None? && fault(es[1]).None?
    ensures var o := ProcessSite(site, parse, fault, fetchDate);
            var es := FetchFeed(site, parse).feed.value;
            && |o.items| == 2
            && o.items[0].article.title == es[0].title.value
            && o.items[1].article.title == es[1].title.value
  {
    ItemsComeFromFirstTwo(site, parse, fault, fetchDate);
  }

  /** A feed holding a single titled entry, whose handling does not raise,
      yields one item. */
  lemma OneTitledEntryGivesOneItem(site: Site, parse: Parser, fault: Fault, fetchDate: string)
    requires FetchFeed(site, parse).feed.Success?
    requires var es := FetchFeed(site, parse).feed.value; |es| == 1 && Titled(es[0]) && fault(es[0]).None?
    ensures var o := ProcessSite(site, parse, fault, fetchDate);
            |o.items| == 1 && o.items[0].article.title == FetchFeed(site, parse).feed.value[0].title.value
  {
    ItemsComeFromFirstTwo(site, parse, fault, fetchDate);
  }

  /** Two entries yield the first one's item, if any, then the second's. */
  lemma ItemsOfPair(site: Site, ptUrl: string, fetchDate: string, e0: Entry, e1: Entry)
    ensures Items(site, ptUrl, fetchDate, [e0, e1])
         == Keep(Normalize(site, ptUrl, fetchDate, e0)) + Keep(Normalize(site, ptUrl, fetchDate, e1))
  {
    ItemsAppend(site, ptUrl, fetchDate, [e0], [e1]);
    ItemsSingle(site, ptUrl, fetchDate, e0);
    ItemsSingle(site, ptUrl, fetchDate, e1);
    assert [e0, e1] == [e0] + [e1];
  }

  /** A single entry yields its own normalization, or nothing. */
  lemma ItemsSingle(site: Site, ptUrl: string, fetchDate: string, e: Entry)
    ensures Items(site, ptUrl, fetchDate, [e]) == Keep(Normalize(site, ptUrl, fetchDate, e))
  {
    assert [e][0] == e && [e][1..] == [];
  }

  /** Entries past the second never influence a site's outcome. */
  lemma OnlyFirstTwoEntriesMatter(site: Site, p: Parser, q: Parser, fault: Fault, fetchDate: string)
    requires FetchFeed(site, p).feed.Success? && FetchFeed(site, q).feed.Success?
    requires FirstTwo(FetchFeed(site, p).feed.value) == FirstTwo(FetchFeed(site, q).feed.value)
    ensures ProcessSite(site, p, fault, fetchDate) == ProcessSite(site, q, fault, fetchDate)
  {
  }

  /** When the localized feed was empty and the canonical one was used, the
      items still carry the localized URL and, if that URL differs from the
      canonical one, the Portuguese label. */
  lemma FallbackKeepsLocalizedLabel(site: Site, parse: Parser, fault: Fault, fetchDate: string)
    requires Localization.PortugueseFeedUrl(site.url) != site.url
    requires parse(Localization.PortugueseFeedUrl(site.url)) == Success([])
    ensures var o := ProcessSite(site, parse, fault, fetchDate);
            forall i :: 0 <= i < |o.items| ==>
              && o.items[i].source.ptUrl == Localization.PortugueseFeedUrl(site.url)
              && o.items[i].metadata.language == "pt"
  {
  }

  /** An entry without a title never becomes an item. */
  lemma UntitledEntrySkipped(site: Site, ptUrl: string, fetchDate: string, es: seq<Entry>, k: int)
    requires 0 <= k < |es| && !Titled(es[k])
    ensures Items(site, ptUrl, fetchDate, es)
         == Items(site, ptUrl, fetchDate, es[..k]) + Items(site, ptUrl, fetchDate, es[k + 1..])
  {
    var a, b := es[..k], es[k + 1..];
    var rest := [es[k]] + b;
    assert es == a + rest;
    ItemsAppend(site, ptUrl, fetchDate, a, rest);
    assert rest[1..] == b;
    assert Items(site, ptUrl, fetchDate, rest) == Items(site, ptUrl, fetchDate, b);
  }
}
