# gamesReader feed pipeline in Dafny

This project models the news-fetching core of `main.py` in the gamesReader
repository: the resolution of a site's canonical feed URL to a
Portuguese-language feed, the `clean_html` text cleaner, and the per-site
loop of `fetch_news` that fetches a feed with fallback, keeps the first two
entries, normalizes each titled entry into a news item and isolates a site
whose fetch raised.

Modules, one file each:

- `Wrappers` (`wrappers.dfy`): `Option` and `Result`.
- `Localization` (`localization.dfy`): `get_portuguese_feed_url`. The
  ten-rule table in its written order, a substring test proved equal to
  "occurs as a contiguous piece", and a first-match lookup.
- `Markup` (`markup.dfy`): `clean_html` as its three passes.
  - `StripTags` deletes `<[^>]+>` matches in one left-to-right scan.
  - `CollapseSpaces` replaces each run of Python whitespace with one space.
  - `Trim` is `str.strip()`.
- `Feeds` (`feeds.dfy`):
  - the raw entry and the news item records;
  - fetching with fallback (`FetchFeed`);
  - normalization of one entry (`Normalize`);
  - the body of the site loop (`ProcessSite`).
- `Aggregator` (`aggregator.dfy`): the loop over the site list. `FetchNews`
  is the reference definition and `FetchNewsLoop` is the loop, proved equal
  to it.

The feed library (`feedparser.parse`) is a parameter `parse` of type
`string -> Result<seq<Entry>, string>`. It gives the entries at a URL, or
the exception the call raised. What handling one titled entry may raise
before its item is appended is a second parameter, `fault`. Examples are
printing the title to a console that cannot encode it (main.py:80), or
cleaning a summary that is not text (main.py:85). The wall-clock timestamp
is a parameter `fetchDate`.

The model follows the code at these points, each easy to misread.

- After falling back to the canonical URL, the code still records the
  localized URL as `pt_url` (main.py:66, 97). It labels the items with the
  language computed from that localized URL (main.py:111). So items read
  from the canonical feed after a fallback are labelled `"pt"` whenever the
  resolved URL differs from the canonical one
  (`Feeds.FallbackKeepsLocalizedLabel`). A site whose URL matches a rule
  that maps it to itself, such as `https://kotaku.com/rss` (main.py:33),
  keeps the label `"en"`.
- Only an empty entry list triggers the fallback (main.py:70). An exception
  on the localized request ends that site's iteration, and the canonical
  URL is never tried.
- The site loop keeps the first two entries, `feed.entries[:2]`
  (main.py:75), whatever the comment above it says.
- When no `tags` are present the categories are the entry's `category`
  value, a string (main.py:107). So `Categories` has a list case and a
  string case.
- `time.sleep(1)` sits inside the `try` (main.py:117). A site whose fetch
  raised is not followed by the pause.

## Model

| member | source | states |
|---|---|---|
| Localization.Contains | main.py:45 | the executable test `domain in original_url` is true exactly when the fragment occurs as a contiguous piece of the URL |
| Localization.LookupResolves | main.py:44-48 | first-match lookup over any ordered rule table returns the feed of the first rule whose fragment occurs in the URL, and the URL itself when no fragment occurs |
| Localization.PortugueseFeedUrlResolves | main.py:28-48 | `get_portuguese_feed_url` over its ten rules, in written order, returns the first matching rule's feed, otherwise the input unchanged |
| Localization.PortugueseFeedUrlRange | main.py:28-48 | the result is always the input URL or one of the ten localized feeds of the table |
| Localization.NoRuleUnchanged | main.py:48 | a URL in which no fragment occurs comes back unchanged |
| Localization.FirstRuleWins | main.py:44-46 | a URL containing `ign.com` resolves to the IGN Brasil feed, whatever other fragments it contains |
| Localization.IgnResolvesToBrasil | main.py:31 | `https://ign.com/feed` resolves to `https://br.ign.com/feed.xml` |
| Localization.UnknownSiteUnchanged | main.py:30-48 | a URL that matches none of the ten fragments (`https://example.org/rss`) is returned unchanged |
| Localization.FragmentMatchIsSubstring | main.py:45 | matching is by substring and not by host: `https://www.campaign.com/feed` also resolves to the IGN Brasil feed |
| Markup.TagSpan | main.py:52 | the tag span at the head of a string is nonzero exactly when `<[^>]+>` matches there, and it ends at the first `>` after the `<` |
| Markup.StripTags | main.py:52 | tag removal never lengthens the text and introduces no character that was not in it |
| Markup.StripTagsPlainPrefix | main.py:52 | text before the first `<` is kept as it is, and tag removal goes on with the rest |
| Markup.StripTagsDropsTag | main.py:52 | a `<`, one or more non-`>` characters and a `>` are deleted together; the text before them is kept and tag removal goes on right after the `>` |
| Markup.StripTagsKeepsLoneBracket | main.py:52 | a `<` that starts no match, because it ends the text, is followed directly by `>`, or has no `>` after its next character, is kept, and tag removal goes on after it |
| Markup.StripTagsInlineTag | main.py:52 | the text on both sides of an inline tag is kept and joined: `x<b>y` becomes `xy` |
| Markup.StripTagsLeavesNoTag | main.py:52 | after tag removal no `<[^>]+>` match remains anywhere in the text, even where deleting one span joins a `<` to a later `>` |
| Markup.StripTagsKeepsTagFree | main.py:52 | text with no tag span passes through tag removal unchanged |
| Markup.StripTagsIdempotent | main.py:52 | removing tags twice gives the same text as removing them once |
| Markup.CollapseSpaces | main.py:54 | after collapsing, every whitespace character is a plain space and no two are adjacent; the result is empty only for empty input and adds no character except the space |
| Markup.CollapseKeepsVisible | main.py:54 | collapsing keeps every non-whitespace character, in order |
| Markup.CollapseKeepsSingleSpaced | main.py:54 | text that is already single-spaced is left unchanged |
| Markup.CollapsePlainPrefix | main.py:54 | a prefix without whitespace passes through the whitespace pass unchanged, and the pass goes on with the rest |
| Markup.CollapseSpaceRun | main.py:54 | a whitespace run followed by non-whitespace text becomes exactly one space |
| Markup.Trim | main.py:55 | `strip()` returns a slice of its input between whitespace-only margins, beginning and ending with non-whitespace |
| Markup.CleanHtml | main.py:50-55 | the cleaned text is single-spaced, has no whitespace at either end and no tag span, and keeps the non-whitespace characters that tag removal left, in order |
| Markup.CleanHtmlKeepsCleaned | main.py:50-55 | cleaning leaves already-clean text as it is |
| Markup.CleanHtmlIdempotent | main.py:50-55 | cleaning twice is cleaning once |
| Markup.CleanHtmlEmpty | main.py:50-55 | cleaning the empty string gives the empty string |
| Markup.CleanHtmlBoldExample | main.py:50-55 | `<b>Hello</b>   world` cleans to `Hello world` |
| Markup.CleanHtmlKeepsEmptyBrackets | main.py:52 | `<>` is not a tag, because `[^>]+` needs at least one character, so it survives cleaning |
| Feeds.Normalize | main.py:77-113 | an entry yields an item exactly when its title is present and non-empty; the item keeps that title, the site's source record with the resolved URL, the fetch date and the label `"pt"` exactly when the resolved URL differs from the canonical one; summary and subtitle are clean |
| Feeds.NormalizeFields | main.py:83-107 | summary from `summary`, else `description`; subtitle from `subtitle`, else `subtitle_detail.value`, else empty; both cleaned; link, date and author verbatim or empty; categories from `tags`, else `category`, else the empty list |
| Feeds.Items | main.py:77-114 | the entries yield as many items as they have titled entries |
| Feeds.ItemsShape | main.py:78-111 | every item is titled and carries the site's source and language label |
| Feeds.ItemsAppend | main.py:77-114 | the items of consecutive runs of entries are concatenated in feed order |
| Feeds.UntitledEntrySkipped | main.py:79 | an untitled entry contributes nothing and leaves the items of the entries around it as they are |
| Feeds.FirstTwo | main.py:75 | `entries[:2]` is the prefix of length two, or the whole list when it is shorter |
| Feeds.FetchFeed | main.py:66-72 | the localized URL is requested first; the canonical URL is requested second exactly when the localized feed parsed to zero entries; the feed used is the last one requested |
| Feeds.FallbackOrder | main.py:66-72 | when the localized feed parsed to zero entries, the canonical URL is requested second and its feed is used; otherwise, including when the localized request raised, only the localized URL is requested and its feed is used as it is |
| Feeds.FallbackKeepsLocalizedLabel | main.py:66-111 | after a fallback from an empty localized feed whose URL differs from the canonical one, every item still records the localized URL as `pt_url` and carries the label `"pt"` |
| Feeds.OnlyFirstTwoEntriesMatter | main.py:75 | two feeds that agree on their first two entries give the same site outcome, items and error, whatever follows |
| Feeds.FirstFault | main.py:77-90 | the first of the entries whose handling raises, every entry before it handled without raising |
| Feeds.ProcessSite | main.py:62-120 | a site whose feed request raised contributes no items and reports that exception; a site reports an error exactly when its request raised or handling one of its first two entries raised; it contributes at most two titled items, each with the site's source and the matching language label |
| Feeds.ItemsComeFromFirstTwo | main.py:75-114 | when no entry's handling raises, a site's items are what its first entry yields followed by what its second yields, each one item or none, and no error is reported |
| Feeds.SecondEntryRaises | main.py:77-119 | when handling the second entry raises, the first entry's item, already appended, stays and the exception is reported |
| Feeds.FirstEntryRaises | main.py:77-119 | when handling the first entry raises, the site contributes no items and reports the exception |
| Feeds.TwoTitledEntriesGiveTwoItems | main.py:75-114 | two titled leading entries give exactly two items, in feed order |
| Feeds.OneTitledEntryGivesOneItem | main.py:75-114 | a feed with a single titled entry gives exactly one item with that title |
| Feeds.CountTitledBound | main.py:77-79 | no more items than entries |
| Aggregator.FetchNewsLoop | main.py:57-122 | the loop over the sites returns the concatenation, in site order, of the items each site appended; a site that raised contributes what it appended before the exception |
| Aggregator.FetchNewsAppend | main.py:61-122 | a run over two consecutive lists of sites is the first run followed by the second |
| Aggregator.FetchNewsSnoc | main.py:61-122 | one more site at the end of the list appends exactly that site's items |
| Aggregator.FetchNewsConcat | main.py:61-122 | the run is the items before a site, then that site's items, then the items after it |
| Aggregator.FetchNewsShape | main.py:57-122 | a run holds at most two items per site, every item is titled, and every item's source is one of the configured sites |
| Aggregator.FailureIsolated | main.py:62-120 | a site whose feed request raised contributes nothing, and the items of every other site are as they would be without it |
| Aggregator.MiddleSiteFails | main.py:119-120 | with three sites where the second one's request raises, the run holds the first site's items followed by the third's |
| Aggregator.PartialSiteKept | main.py:114-120 | when handling a site's second entry raises, its first entry's item stays in the run, followed by the next site's items |
| Aggregator.IgnScenario | main.py:57-122 | one IGN site whose IGN Brasil feed holds entries "A" and "B" yields two items, "A" first, both labelled `"pt"`, with the canonical and the localized URL recorded |

## Left out

- `read_sites_file` (main.py:9-26) and `save_to_json`/`main` (main.py:124 onwards) are not part of this model. They read the site list and write the output file.
- `feedparser.parse`: the network and the feed library are the parameter `parse`. It returns the same answer whenever it is given the same URL, so a feed that changes between two requests in one run is not modelled.
- An exception raised by the progress prints at main.py:63 and main.py:71, or by `site['name']` on a site record without a name, is not modelled. The handler at main.py:120 reads `site['name']` and prints again. So a missing name, or a name the console cannot encode, raises a second time inside the handler, and the exception leaves `fetch_news` with no result.
- The handler's own print at main.py:120 is taken never to raise. `Feeds.ProcessSite`, `Aggregator.FailureIsolated`, `Aggregator.PartialSiteKept` and every use of `fault` rest on it: a site's exception is reported and the loop goes on to the next site.
- The text written by the progress `print` calls (main.py:63, 71, 80, 120) and the pause `time.sleep(1)` (main.py:117) do not affect the result and are left out.
- `datetime.now().isoformat()` (main.py:110) is read once per item in the source. The model takes one opaque `fetchDate` string for the whole run, so it does not state that two items may carry different timestamps.
- Entry fields are modelled as optional strings. A field present with a non-string value, such as a feed library `None`, is not modelled as a value. That cleaning such a field raises is covered by `fault`. Each element of `tags` is an opaque string standing for a tag record.
