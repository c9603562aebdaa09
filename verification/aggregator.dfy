/** The site loop of `fetch_news` in main.py: every site is processed in
    list order, an exception while processing one site is caught and the
    loop moves on, and the result is every item appended along the way. */
module Aggregator {
  import opened Wrappers
  import Localization
  import Feeds

  /** The items of a run over `sites`: the items of all sites but the last,
      then those the last one appended, whether or not it then raised. This
      is the reference definition the loop below is proved against. */
  function FetchNews(sites: seq<Feeds.Site>, parse: Feeds.Parser, fault: Feeds.Fault, fetchDate: string): seq<Feeds.NewsItem> {
    if sites == [] then []
    else FetchNews(sites[..|sites| - 1], parse, fault, fetchDate)
         + Feeds.ProcessSite(sites[|sites| - 1], parse, fault, fetchDate).items
  }

  /** A run over two consecutive lists of sites is the first run followed by
      the second: items appear in site order. */
  lemma {:induction false} FetchNewsAppend(a: seq<Feeds.Site>, b: seq<Feeds.Site>, parse: Feeds.Parser, fault: Feeds.Fault, fetchDate: string)
    ensures FetchNews(a + b, parse, fault, fetchDate) == FetchNews(a, parse, fault, fetchDate) + FetchNews(b, parse, fault, fetchDate)
    decreases |b|
  {
    if b == [] {
      assert a + b == a;
    } else {
      var init, last := b[..|b| - 1], b[|b| - 1];
      var x := Feeds.ProcessSite(last, parse, fault, fetchDate).items;
      calc {
        FetchNews(a + b, parse, fault, fetchDate);
      == { assert (a + b)[..|a + b| - 1] == a + init; assert (a + b)[|a + b| - 1] == last; }
        FetchNews(a + init, parse, fault, fetchDate) + x;
      == { FetchNewsAppend(a, init, parse, fault, fetchDate); }
        FetchNews(a, parse, fault, fetchDate) + FetchNews(init, parse, fault, fetchDate) + x;
      ==
        FetchNews(a, parse, fault, fetchDate) + (FetchNews(init, parse, fault, fetchDate) + x);
      ==
        FetchNews(a, parse, fault, fetchDate) + FetchNews(b, parse, fault, fetchDate);
      }
    }
  }

  /** The run over a single site is that site's items. */
  lemma FetchNewsSingle(site: Feeds.Site, parse: Feeds.Parser, fault: Feeds.Fault, fetchDate: string)
    ensures FetchNews([site], parse, fault, fetchDate) == Feeds.ProcessSite(site, parse, fault, fetchDate).items
  {
    assert [site][..0] == [];
  }

  /** One more site at the end of the list appends that site's items. */
  lemma FetchNewsSnoc(sites: seq<Feeds.Site>, site: Feeds.Site, parse: Feeds.Parser, fault: Feeds.Fault, fetchDate: string)
    ensures FetchNews(sites + [site], parse, fault, fetchDate)
         == FetchNews(sites, parse, fault, fetchDate) + Feeds.ProcessSite(site, parse, fault, fetchDate).items
  {
    assert (sites + [site])[..|sites|] == sites;
  }

  /** `fetch_news` as the loop it is: each iteration appends whatever its
      site appended, including what a site that then raised had appended
      before the exception. */
  method FetchNewsLoop(sites: seq<Feeds.Site>, parse: Feeds.Parser, fault: Feeds.Fault, fetchDate: string)
    returns (news: seq<Feeds.NewsItem>)
    ensures news == FetchNews(sites, parse, fault, fetchDate)
  {
    news := [];
    var index := 0;
    while index < |sites|
      invariant 0 <= index <= |sites|
      invariant news == FetchNews(sites[..index], parse, fault, fetchDate)
    {
      var outcome := Feeds.ProcessSite(sites[index], parse, fault, fetchDate);
      news := news + outcome.items;
      FetchNewsSnoc(sites[..index], sites[index], parse, fault, fetchDate);
      assert sites[..index + 1] == sites[..index] + [sites[index]];
      index := index + 1;
    }
    assert sites[..index] == sites;
  }

  /** The `source` record every item of `site` carries. */
  function SourceOf(site: Feeds.Site): Feeds.Source {
    Feeds.Source(site.name, site.url, Localization.PortugueseFeedUrl(site.url), site.description)
  }

  /** Each site adds at most two items, every item has a title, and every
      item names one of the configured sites as its source. */
  lemma {:induction false} FetchNewsShape(sites: seq<Feeds.Site>, parse: Feeds.Parser, fault: Feeds.Fault, fetchDate: string)
    ensures var news := FetchNews(sites, parse, fault, fetchDate);
            && |news| <= 2 * |sites|
            && (forall i :: 0 <= i < |news| ==> news[i].article.title != "")
            && (forall i :: 0 <= i < |news| ==> exists j :: 0 <= j < |sites| && news[i].source == SourceOf(sites[j]))
  {
    if sites != [] {
      var init := sites[..|sites| - 1];
      var last := sites[|sites| - 1];
      assert sites == init + [last];
      FetchNewsShape(init, parse, fault, fetchDate);
      FetchNewsSnoc(init, last, parse, fault, fetchDate);
      var before := FetchNews(init, parse, fault, fetchDate);
      var items := Feeds.ProcessSite(last, parse, fault, fetchDate).items;
      var news := before + items;
      forall i | 0 <= i < |news|
        ensures news[i].article.title != ""
        ensures exists j :: 0 <= j < |sites| && news[i].source == SourceOf(sites[j])
      {
        if i < |before| {
          assert news[i] == before[i];
          var j :| 0 <= j < |init| && before[i].source == SourceOf(init[j]);
          assert init[j] == sites[j];
        } else {
          assert news[i] == items[i - |before|];
          assert news[i].source == SourceOf(sites[|sites| - 1]);
        }
      }
    }
  }

  /** The run is the concatenation of the sites' items in site order. */
  lemma FetchNewsConcat(sites: seq<Feeds.Site>, i: int, parse: Feeds.Parser, fault: Feeds.Fault, fetchDate: string)
    requires 0 <= i < |sites|
    ensures FetchNews(sites, parse, fault, fetchDate)
         == FetchNews(sites[..i], parse, fault, fetchDate)
            + Feeds.ProcessSite(sites[i], parse, fault, fetchDate).items
            + FetchNews(sites[i + 1..], parse, fault, fetchDate)
  {
    assert sites == sites[..i] + [sites[i]] + sites[i + 1..];
    FetchNewsAppend(sites[..i] + [sites[i]], sites[i + 1..], parse, fault, fetchDate);
    FetchNewsSnoc(sites[..i], sites[i], parse, fault, fetchDate);
  }

  /** Failure isolation: a site whose feed request raised contributes
      nothing and leaves the items of every other site, before and after
      it, as they would be without it. */
  lemma FailureIsolated(sites: seq<Feeds.Site>, i: int, parse: Feeds.Parser, fault: Feeds.Fault, fetchDate: string)
    requires 0 <= i < |sites|
    requires Feeds.FetchFeed(sites[i], parse).feed.Failure?
    ensures FetchNews(sites, parse, fault, fetchDate)
         == FetchNews(sites[..i], parse, fault, fetchDate) + FetchNews(sites[i + 1..], parse, fault, fetchDate)
  {
    var before := FetchNews(sites[..i], parse, fault, fetchDate);
    var after := FetchNews(sites[i + 1..], parse, fault, fetchDate);
    calc {
      FetchNews(sites, parse, fault, fetchDate);
    == { FetchNewsConcat(sites, i, parse, fault, fetchDate); }
      before + Feeds.ProcessSite(sites[i], parse, fault, fetchDate).items + after;
    == { assert Feeds.ProcessSite(sites[i], parse, fault, fetchDate).items == []; }
      before + [] + after;
    == { assert before + [] == before; }
      before + after;
    }
  }

  /** Three sites where the second one's feed request raises: the run holds
      the items of the first and the third site, in that order. */
  lemma MiddleSiteFails(s1: Feeds.Site, s2: Feeds.Site, s3: Feeds.Site, parse: Feeds.Parser, fault: Feeds.Fault, fetchDate: string)
    requires parse(Localization.PortugueseFeedUrl(s2.url)).Failure?
    ensures FetchNews([s1, s2, s3], parse, fault, fetchDate)
         == Feeds.ProcessSite(s1, parse, fault, fetchDate).items + Feeds.ProcessSite(s3, parse, fault, fetchDate).items
  {
    var sites := [s1, s2, s3];
    FailureIsolated(sites, 1, parse, fault, fetchDate);
    assert sites[..1] == [s1] && sites[2..] == [s3];
    FetchNewsSingle(s1, parse, fault, fetchDate);
    FetchNewsSingle(s3, parse, fault, fetchDate);
  }

  /** Two sites where handling the first site's second entry raises: the
      item of its first entry, appended before the exception, stays in the
      run, followed by the second site's items. */
  lemma PartialSiteKept(s1: Feeds.Site, s2: Feeds.Site, parse: Feeds.Parser, fault: Feeds.Fault, fetchDate: string)
    requires Feeds.FetchFeed(s1, parse).feed.Success?
    requires var es := Feeds.FetchFeed(s1, parse).feed.value;
             && |es| >= 2 && Feeds.Titled(es[0]) && fault(es[0]).None?
             && Feeds.Raises(fault, es[1])
    ensures var es := Feeds.FetchFeed(s1, parse).feed.value;
            var first := Feeds.Normalize(s1, Feeds.FetchFeed(s1, parse).ptUrl, fetchDate, es[0]);
            && first.Some?
            && FetchNews([s1, s2], parse, fault, fetchDate)
               == [first.value] + Feeds.ProcessSite(s2, parse, fault, fetchDate).items
  {
    Feeds.SecondEntryRaises(s1, parse, fault, fetchDate);
    FetchNewsSingle(s1, parse, fault, fetchDate);
    FetchNewsSnoc([s1], s2, parse, fault, fetchDate);
    assert [s1] + [s2] == [s1, s2];
  }

  /** One IGN site whose IGN Brasil feed holds two titled entries "A" and
      "B": the run yields two Portuguese-labelled items, "A" first, that
      record both the canonical and the localized URL. */
  lemma IgnScenario(site: Feeds.Site, parse: Feeds.Parser, fault: Feeds.Fault, fetchDate: string, a: Feeds.Entry, b: Feeds.Entry)
    requires site == Feeds.Site("Example", "https://ign.com/feed", "gaming")
    requires a.title == Some("A") && b.title == Some("B")
    requires parse("https://br.ign.com/feed.xml") == Success([a, b])
    requires fault(a) == None && fault(b) == None
    ensures var news := FetchNews([site], parse, fault, fetchDate);
            && |news| == 2
            && news[0].article.title == "A"
            && news[1].article.title == "B"
            && (forall i :: 0 <= i < 2 ==> news[i].metadata.language == "pt")
            && (forall i :: 0 <= i < 2 ==> news[i].source.url == "https://ign.com/feed")
            && (forall i :: 0 <= i < 2 ==> news[i].source.ptUrl == "https://br.ign.com/feed.xml")
  {
    Localization.IgnResolvesToBrasil(site.url);
    FetchNewsSingle(site, parse, fault, fetchDate);
    Feeds.TwoTitledEntriesGiveTwoItems(site, parse, fault, fetchDate);
  }
}
