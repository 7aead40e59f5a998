# fetch_rss: incremental merge of RSS entries into a stored list

`rss/fetch_rss.py` keeps a list of at most 200 articles. Each run does the following:

1. It loads the previously written list into a dictionary keyed by `link`.
2. It walks every configured feed in table order and every entry in document order. It adds each entry whose link is not yet in the dictionary and that carries a usable `published`/`updated` string and a title. An entry without a link, or an entry with a new link and a usable date but no title, raises an attribute error. The error ends its feed: the rest of that feed's entries are dropped.
3. It lists the dictionary's values, stable-sorts them newest first by their `published` string and keeps the first 200.

New records get the feed's key as `blog_name`. Their `published` is the ISO form of the parsed date and their summary is cut to 150 characters. Dates go through `parse_date`. It tries four `strptime` formats in order and deletes a colon found third from the end before every attempt. When nothing parses, it falls back to 1970-01-01 00:00 UTC.

The model has these modules:

- `DateParse`: `parse_date`. There is a pure definition (`ParsedDate`, over the cumulative rewrite `Rewritten`) and a method with the source's loop (`ParseDate`) proved equal to it. `strptime` and `isoformat` are parameters (`DateLib`).
- `Records`: the article record (`Entry`), a feed entry as the parser hands it over (`FeedItem`, where a missing attribute is `None`), and the insertion-ordered dictionary (`LinkIndex`: key order plus map).
- `StringOrder`: Python's `<=` on `str`, lexicographic by code point, proved to be a total order.
- `Ranking`: the stable descending sort by `published`. It is proved sorted, a permutation, stable on equal keys, and free of repeated links.
- `Slices`: Python's `s[:n]`.
- `FetchRss`: the body of `main`.
  - The specification functions are `Seed` (loading), `ProcessItems`/`Overlay` (the feeds), `Merged` and `Ranked`.
  - The methods are `LoadStored`, `AddItem`, `AddFeedItems` and `Merge`. They have the source's loops and are proved equal to those functions.
  - Lemmas state which side wins a collision, where every output record comes from, what `new_entries_count` counts, and what the output looks like.

Some consequences of the code worth stating outright:

- A fetched entry whose link is already present is ignored: the stored or earlier-fetched record wins (first write wins).
- The sort key is the `published` string, compared character by character, not a point in time.
- New summaries are cut at 150 characters.
- Within the stored list, a repeated link takes the value of its last occurrence but keeps the position of its first.

## Model

| member | source | states |
|---|---|---|
| DateParse.HasOffsetColon | rss/fetch_rss.py:34 | The colon test `":" == s[-3:-2]`, false for strings shorter than three characters. Its consequences are stated by `StripOffsetColon`. |
| DateParse.StripOffsetColon | rss/fetch_rss.py:34-35 | When the third character from the end is `:`, exactly that character is deleted: one character shorter, everything before it kept, everything after it shifted down by one, and the multiset loses one `:`. A string shorter than three characters, or without the colon, is returned unchanged. |
| DateParse.Rewritten | rss/fetch_rss.py:32-35 | The string the n-th attempt sees is at most n characters shorter than the input and never longer. |
| DateParse.RewrittenNeverGrows | rss/fetch_rss.py:32-35 | Across attempts the string never grows, and from attempt m to attempt n it loses at most n - m characters. |
| DateParse.RewriteSettles | rss/fetch_rss.py:34-35 | Once the colon test fails, every later attempt sees the same string. |
| DateParse.StripKeepsLastTwo | rss/fetch_rss.py:34-35 | One rewrite keeps the last two characters. |
| DateParse.RewrittenKeepsLastTwo | rss/fetch_rss.py:32-35 | Any number of rewrites keeps the last two characters, i.e. the minutes of an offset. |
| DateParse.IsoOffsetRewritten | rss/fetch_rss.py:30-35 | An ISO-8601 offset `+hh:mm` reaches every attempt as `+hhmm`: the colon is removed once and then left alone. |
| DateParse.RfcOffsetUnchanged | rss/fetch_rss.py:29-35 | Any string ending in a sign and four digits (an RFC 1123 offset `+hhmm`) reaches every attempt unchanged. |
| DateParse.Attempt | rss/fetch_rss.py:36 | The `strptime` call of attempt k, on the string after k + 1 rewrites; the first-success lemmas below are stated in terms of it. |
| DateParse.ParseFrom | rss/fetch_rss.py:32-40 | The attempts from format i on; its meaning is stated by `ParseFromFirstSuccess`. |
| DateParse.ParseFromFirstSuccess | rss/fetch_rss.py:32-40 | From format i on, the result is the first `strptime` success in format order on the cumulatively rewritten string, or the epoch sentinel when every attempt fails. |
| DateParse.ParsedDate | rss/fetch_rss.py:26-40 | `parse_date` returns the first success in the order of the four formats, or 1970-01-01 00:00 UTC when all four fail. |
| DateParse.ParsedDateIsFirstSuccess | rss/fetch_rss.py:32-38 | Converse: if attempt k succeeds and every earlier one fails, the result is attempt k's value. |
| DateParse.ParsedDateAllFail | rss/fetch_rss.py:39-40 | When every attempt fails the result is the epoch sentinel. |
| DateParse.ParseDate | rss/fetch_rss.py:26-40 | The loop that reassigns the date string and returns on the first success computes `ParsedDate`. |
| StringOrder.Le | rss/fetch_rss.py:98 | Python's `<=` on `str`: lexicographic by code point, a proper prefix first. The four lemmas below prove it a total order. |
| StringOrder.LeReflexive | rss/fetch_rss.py:98 | Python string `<=` is reflexive. |
| StringOrder.LeTotal | rss/fetch_rss.py:98 | Any two strings are comparable. |
| StringOrder.LeTransitive | rss/fetch_rss.py:98 | String `<=` is transitive. |
| StringOrder.LeAntisymmetric | rss/fetch_rss.py:98 | Strings that are `<=` each other are equal. |
| Ranking.InsertDesc | rss/fetch_rss.py:98 | Inserting one entry adds exactly that entry (multiset and membership). |
| Ranking.SortDesc | rss/fetch_rss.py:98 | The sorted list is a permutation of its input. |
| Ranking.InsertDescSorted | rss/fetch_rss.py:98 | Inserting into a sorted list keeps it sorted. |
| Ranking.SortDescSorted | rss/fetch_rss.py:98 | The sorted list is non-increasing by `published`. |
| Ranking.InsertDescWithKey | rss/fetch_rss.py:98 | Inserting puts the new entry ahead of entries with an equal key. |
| Ranking.SortDescStable | rss/fetch_rss.py:98 | The sort is stable: for every key, the entries with that key keep their input order. |
| Ranking.InsertDescDistinct | rss/fetch_rss.py:98 | Inserting an entry with a new link keeps links distinct. |
| Ranking.SortDescDistinct | rss/fetch_rss.py:98 | Sorting a list without repeated links gives a list without repeated links. |
| Ranking.SortDescOfSorted | rss/fetch_rss.py:98 | A list that is already sorted comes back unchanged. |
| Records.LinkIndex.Put | rss/fetch_rss.py:57 | Dictionary assignment. The key maps to the new value. A new key is appended to the order; an existing key keeps its position. The dictionary invariant (distinct order, same key set, every record keyed by its own link) is preserved. |
| Records.LinkIndex.Values | rss/fetch_rss.py:94 | `list(d.values())`: one value per key, in insertion order, with no repeated link, and as many as the dictionary has keys. |
| Records.PutNewValues | rss/fetch_rss.py:94 | Adding a new key appends its record to the values list. |
| Slices.Take | rss/fetch_rss.py:102-106 | `s[:n]` is the prefix of length min(len(s), n). |
| FetchRss.UsableDate | rss/fetch_rss.py:75-77 | The date string is `published`, or `updated` only when `published` is absent, and is used only when non-empty. |
| FetchRss.Build | rss/fetch_rss.py:79-86 | A record is built exactly when link, title and a usable date are present. Its `blog_name` is the feed key and link and title are the entry's. `published` is the ISO form of the parsed date. The summary is the first min(len, 150) characters of the entry's summary, or "" when it has none. |
| FetchRss.ItemStep | rss/fetch_rss.py:74-86 | An entry is inserted exactly when its link is new and a record can be built. It aborts its feed exactly when it has no link, or has a new link and a usable date but no title. Otherwise it is skipped. |
| FetchRss.Apply | rss/fetch_rss.py:82-87 | One step's effect: an insert adds the record and counts it, anything else leaves dictionary and counter alone. `AddItem` is proved to perform it. |
| FetchRss.ProcessItems | rss/fetch_rss.py:72-87 | One feed's entries in order, stopping at the first attribute error. Its properties are stated by `ProcessItemsExtends`, `ProcessItemsProvenance` and `KnownItemsChangeNothing`. |
| FetchRss.ProcessItemsExtends | rss/fetch_rss.py:72-87 | One feed only appends new keys, counts each of them once, and leaves every record already present unchanged. |
| FetchRss.Overlay | rss/fetch_rss.py:65-89 | All feeds in table order. Its properties are stated by `OverlayExtends`, `OverlayProvenance` and `KnownFeedsChangeNothing`. |
| FetchRss.OverlayExtends | rss/fetch_rss.py:65-89 | The same for all feeds in table order. |
| FetchRss.Seed | rss/fetch_rss.py:56-57 | Loading the stored list gives a dictionary that keeps the invariant. |
| FetchRss.SeedKeys | rss/fetch_rss.py:56-57 | The keys after loading are exactly the stored links. |
| FetchRss.SeedKeepsLast | rss/fetch_rss.py:56-57 | A link stored more than once keeps the value of its last occurrence. |
| FetchRss.FirstIndex | rss/fetch_rss.py:56-57 | The position of the first stored entry with link k, or the list's length when there is none: the entry at that position has link k. |
| FetchRss.FirstIndexIsFirst | rss/fetch_rss.py:56-57 | No entry before `FirstIndex` has link k, so it is the least such position. |
| FetchRss.SeedFirstOrder | rss/fetch_rss.py:56-57 | Loading orders the keys by the position of each link's first occurrence: a repeated link keeps the place it was first inserted at. With `SeedKeys` and the distinct order, this fixes the loaded order. |
| FetchRss.SeedValuesOfDistinct | rss/fetch_rss.py:56-57 | Loading a list without repeated links and listing the values gives back that list. |
| FetchRss.Merged | rss/fetch_rss.py:50-89 | The merged dictionary continues the loaded one: keys are only appended and loaded records are unchanged. |
| FetchRss.HistoryWins | rss/fetch_rss.py:74 | A stored link keeps its stored record after all feeds: fetched entries never replace it. |
| FetchRss.ProcessItemsProvenance | rss/fetch_rss.py:72-86 | Every key a feed adds maps to a record built from one of that feed's entries. |
| FetchRss.OverlayProvenance | rss/fetch_rss.py:65-89 | Every key the feeds add maps to a record built from some feed's entry. |
| FetchRss.RecordProvenance | rss/fetch_rss.py:50-94 | Every value of the merged dictionary is the last stored entry with its link or was built from a fetched entry. |
| FetchRss.ExtendsCountsNewKeys | rss/fetch_rss.py:74-87 | Along the merge the counter grows by the number of keys that were not there before. |
| FetchRss.NewEntriesCount | rss/fetch_rss.py:64-87 | `new_entries_count` equals the number of links in the final dictionary that loading did not supply. |
| FetchRss.Ranked | rss/fetch_rss.py:94-98 | The dictionary's values after the sort. Its properties are stated by `RankedStable`, `OutputProperties` and `OutputProvenance`. |
| FetchRss.RankedStable | rss/fetch_rss.py:94-98 | Entries with equal `published` keep the dictionary's insertion order after the sort. |
| FetchRss.OutputProperties | rss/fetch_rss.py:94-106 | The output has length min(n, 200) and is a prefix of the sorted values. It is sorted, has no repeated link, and no entry it drops sorts ahead of one it keeps. |
| FetchRss.OutputProvenance | rss/fetch_rss.py:94-106 | Every output entry is stored history or was built from a fetched entry. |
| FetchRss.KnownItemsChangeNothing | rss/fetch_rss.py:72-77 | A feed whose every link is already present leaves dictionary and counter unchanged. |
| FetchRss.KnownFeedsChangeNothing | rss/fetch_rss.py:65-89 | The same for all feeds. |
| FetchRss.RerunIsStable | rss/fetch_rss.py:50-106 | Re-running on a list the program wrote, with no new link fetched, writes the same list back and counts 0 new entries. |
| FetchRss.LoadStored | rss/fetch_rss.py:56-57 | The loading loop builds the dictionary `Seed` describes. |
| FetchRss.AddItem | rss/fetch_rss.py:74-87 | One entry's step as the loop performs it: it stops the feed exactly on an abort, and otherwise inserts and counts or leaves the state as it was, as `ItemStep` says. |
| FetchRss.AddFeedItems | rss/fetch_rss.py:66-89 | The loop over one feed's entries, stopping at an attribute error, computes `ProcessItems`. |
| FetchRss.Merge | rss/fetch_rss.py:50-106 | The whole merge. The output is the first 200 of the sorted values, of length min(n, 200), sorted, with no repeated link, each entry from history or a fetched entry. The returned count is the number of new links. |

## Left out

- `get_output_path` and the JSON read and write (lines 17-24, 51-60, 108-115). The stored list is an input, and a missing or unreadable file is the empty list. The output is a return value.
- A stored object without a `link` key raises an uncaught `KeyError` and ends the run. It is not modelled: every stored `Entry` has a link. Stored objects are modelled with the five fields the program writes.
- `feedparser.parse`, the network and the `bozo` flag (lines 68-70): each feed's entries are an input. An exception raised inside the parser is modelled by giving that feed fewer entries.
- Exceptions inside a feed's loop are modelled only for a missing `link` or `title` attribute, which end that feed (`Step.Abort`). Any other exception ends the feed in the same way, and is represented by a shorter entry list.
- The meaning of `datetime.strptime` and `datetime.isoformat` (lines 36, 84). They are parameters of `DateParse.DateLib`, so the proved properties hold for any behaviour of theirs.
- `DateParse.ParsedDate`: the `strptime` parameter is total and never raises anything but a parse failure, so an exception other than `ValueError` is not modelled.
- All `print` output, including the warning on line 39.
- The feed table's contents (lines 10-13): the feeds are an input sequence in table order.
- `Ranking.SortDesc`: Python's in-place Timsort (line 98) is stood for by an insertion sort. Both are stable and sort by the same key, so they give the same list. The sort is applied to a value, not in place.
- The dictionary (`Records.LinkIndex`) is a value that the methods reassign rather than an object updated in place. The source never aliases it, so nothing depends on the difference.
