/** Localized-feed resolution: `get_portuguese_feed_url` in main.py.
    A fixed, ordered table of (domain fragment, feed URL) rules is scanned
    in written order; the first fragment that occurs anywhere in the input
    URL selects its feed, otherwise the input comes back unchanged. */
module Localization {

  /** `key` starts at index `i` of `s`. */
  predicate OccursAt(key: string, s: string, i: int) {
    0 <= i <= |s| - |key| && s[i..i + |key|] == key
  }

  /** `key` occurs as a contiguous piece of `s` (Python's `key in s` on strings). */
  ghost predicate Occurs(key: string, s: string) {
    exists i :: OccursAt(key, s, i)
  }

  /** Executable substring test, proved to agree with `Occurs`. */
  function Contains(s: string, key: string): (b: bool)
    ensures b <==> Occurs(key, s)
    decreases |s|
  {
    if |s| < |key| then false
    else if s[..|key|] == key then
      assert OccursAt(key, s, 0);
      true
    else
      OccursInTail(s, key);
      Contains(s[1..], key)
  }

  /** When `key` is not a prefix of `s`, it occurs in `s` exactly when it occurs in `s[1..]`. */
  lemma OccursInTail(s: string, key: string)
    requires |s| >= |key| && s[..|key|] != key
    ensures Occurs(key, s) <==> Occurs(key, s[1..])
  {
    if i :| OccursAt(key, s, i) {
      assert i != 0;
      assert s[1..][i - 1..i - 1 + |key|] == s[i..i + |key|];
      assert OccursAt(key, s[1..], i - 1);
    }
    if i :| OccursAt(key, s[1..], i) {
      assert s[1..][i..i + |key|] == s[i + 1..i + 1 + |key|];
      assert OccursAt(key, s, i + 1);
    }
  }

  /** A localization rule: a domain fragment and the feed it selects. */
  type Rule = (string, string)

  /** The rules of main.py:30-41, in the order they are written there. */
  const PortugueseFeeds: seq<Rule> := [
    ("ign.com", "https://br.ign.com/feed.xml"),
    ("gamespot.com", "https://www.gamespot.com/feeds/mashup/"),
    ("kotaku.com", "https://kotaku.com/rss"),
    ("eurogamer.net", "https://www.eurogamer.pt/?format=rss"),
    ("pcgamer.com", "https://www.pcgamer.com/rss/"),
    ("theverge.com", "https://www.theverge.com/gaming/rss/index.xml"),
    ("nintendolife.com", "https://www.nintendolife.com/feeds/news"),
    ("pushsquare.com", "https://www.pushsquare.com/feeds/news"),
    ("purexbox.com", "https://www.purexbox.com/feeds/news"),
    ("rockpapershotgun.com", "https://www.rockpapershotgun.com/feed")
  ]

  /** Rule `i` is the first rule of `rules` whose fragment occurs in `url`. */
  ghost predicate FirstMatch(rules: seq<Rule>, url: string, i: int) {
    && 0 <= i < |rules|
    && Occurs(rules[i].0, url)
    && forall j :: 0 <= j < i ==> !Occurs(rules[j].0, url)
  }

  /** No fragment of `rules` occurs in `url`. */
  ghost predicate NoMatch(rules: seq<Rule>, url: string) {
    forall j :: 0 <= j < |rules| ==> !Occurs(rules[j].0, url)
  }

  /** `r` is what first-match lookup of `url` in `rules` must give: the feed
      of the first rule whose fragment occurs in `url`, or `url` itself when
      no fragment occurs. */
  ghost predicate Resolves(rules: seq<Rule>, url: string, r: string) {
    || (exists i :: FirstMatch(rules, url, i) && r == rules[i].1)
    || (NoMatch(rules, url) && r == url)
  }

  /** First-match lookup over an arbitrary ordered rule table. */
  function Lookup(rules: seq<Rule>, url: string): string {
    if rules == [] then url
    else if Contains(url, rules[0].0) then rules[0].1
    else Lookup(rules[1..], url)
  }

  /** Lookup answers with the feed of the first rule whose fragment occurs
      in the URL, and with the URL itself when no fragment occurs. */
  lemma {:induction false} LookupResolves(rules: seq<Rule>, url: string)
    ensures Resolves(rules, url, Lookup(rules, url))
  {
    if rules == [] {
    } else if Contains(url, rules[0].0) {
      assert FirstMatch(rules, url, 0);
    } else {
      LookupResolves(rules[1..], url);
      LookupSkipsFirst(rules, url, Lookup(rules[1..], url));
    }
  }

  /** When the first fragment does not occur, the answer for the remaining
      rules is the answer for the whole table. */
  lemma LookupSkipsFirst(rules: seq<Rule>, url: string, r: string)
    requires rules != [] && !Occurs(rules[0].0, url)
    requires Resolves(rules[1..], url, r)
    ensures Resolves(rules, url, r)
  {
    if i :| FirstMatch(rules[1..], url, i) && r == rules[1..][i].1 {
      assert FirstMatch(rules, url, i + 1);
    } else {
      assert forall j :: 1 <= j < |rules| ==> rules[j] == rules[1..][j - 1];
    }
  }

  /** `get_portuguese_feed_url`: the localized feed for `url`, or `url` itself. */
  function PortugueseFeedUrl(url: string): string {
    Lookup(PortugueseFeeds, url)
  }

  /** The localized feed is the one of the first rule, in the table's
      written order, whose fragment occurs in the URL; with no such rule the
      URL comes back unchanged. */
  lemma PortugueseFeedUrlResolves(url: string)
    ensures Resolves(PortugueseFeeds, url, PortugueseFeedUrl(url))
  {
    LookupResolves(PortugueseFeeds, url);
  }

  /** The localized URL is always the input itself or one of the ten
      feeds of the table. */
  lemma PortugueseFeedUrlRange(url: string)
    ensures var r := PortugueseFeedUrl(url);
            r == url || exists i :: 0 <= i < |PortugueseFeeds| && r == PortugueseFeeds[i].1
  {
    PortugueseFeedUrlResolves(url);
  }

  /** A fragment containing a character that `s` lacks cannot occur in `s`. */
  lemma AbsentCharRulesOut(key: string, s: string, c: char)
    requires c in key && c !in s
    ensures !Occurs(key, s)
  {
  }

  /** A URL in which the first rule's fragment occurs gets the first rule's feed. */
  lemma FirstRuleWins(url: string)
    requires Occurs(PortugueseFeeds[0].0, url)
    ensures PortugueseFeedUrl(url) == PortugueseFeeds[0].1
  {
    PortugueseFeedUrlResolves(url);
  }

  /** A URL in which no fragment occurs is returned unchanged. */
  lemma NoRuleUnchanged(url: string)
    requires NoMatch(PortugueseFeeds, url)
    ensures PortugueseFeedUrl(url) == url
  {
    PortugueseFeedUrlResolves(url);
  }

  /** A canonical IGN URL resolves to the IGN Brasil feed. */
  lemma IgnResolvesToBrasil(url: string)
    requires url == "https://ign.com/feed"
    ensures PortugueseFeedUrl(url) == "https://br.ign.com/feed.xml"
  {
    assert OccursAt(PortugueseFeeds[0].0, url, 8);
    FirstRuleWins(url);
  }

  /** A URL that contains no rule fragment is returned unchanged. */
  lemma UnknownSiteUnchanged(url: string)
    requires url == "https://example.org/rss"
    ensures PortugueseFeedUrl(url) == url
  {
    AbsentCharRulesOut(PortugueseFeeds[0].0, url, 'i');
    AbsentCharRulesOut(PortugueseFeeds[1].0, url, 'c');
    AbsentCharRulesOut(PortugueseFeeds[2].0, url, 'k');
    AbsentCharRulesOut(PortugueseFeeds[3].0, url, 'n');
    AbsentCharRulesOut(PortugueseFeeds[4].0, url, 'c');
    AbsentCharRulesOut(PortugueseFeeds[5].0, url, 'c');
    AbsentCharRulesOut(PortugueseFeeds[6].0, url, 'n');
    AbsentCharRulesOut(PortugueseFeeds[7].0, url, 'c');
    AbsentCharRulesOut(PortugueseFeeds[8].0, url, 'c');
    AbsentCharRulesOut(PortugueseFeeds[9].0, url, 'c');
    NoRuleUnchanged(url);
  }

  /** Matching is by substring, not by host name: a different domain whose
      name ends in the IGN fragment is also sent to the IGN Brasil feed. */
  lemma FragmentMatchIsSubstring(url: string)
    requires url == "https://www.campaign.com/feed"
    ensures PortugueseFeedUrl(url) == "https://br.ign.com/feed.xml"
  {
    assert OccursAt(PortugueseFeeds[0].0, url, 17);
    FirstRuleWins(url);
  }
}
