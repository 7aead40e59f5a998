/**
 * The body of `main`: seed a dictionary keyed by link from the stored list,
 * add every new feed entry whose link is not yet present, sort the values by
 * their `published` string, newest first, and keep the first
 * `MaxEntriesLimit` of them.
 */
module FetchRss {
  import opened Wrappers
  import opened Slices
  import opened Records
  import opened Ranking
  import opened DateParse
  import StringOrder

  /** `MAX_ENTRIES_LIMIT`: the number of stored articles kept. */
  const MaxEntriesLimit: nat := 200

  /** A new record's summary is cut to this many characters. */
  const SummaryLimit: nat := 150

  /**
   * `entry.get("published", entry.get("updated"))`, kept only when it is a
   * non-empty string (`if not published_str: continue`).
   */
  function UsableDate(item: FeedItem): (d: Option<string>)
    ensures d.Some? ==> d.value != ""
    ensures d.Some? <==>
      if item.published.Some? then item.published.value != "" else item.updated.Some? && item.updated.value != ""
    ensures d.Some? ==> d == (if item.published.Some? then item.published else item.updated)
  {
    var raw := if item.published.Some? then item.published else item.updated;
    if raw.Some? && raw.value != "" then raw else None
  }

  /**
   * The record built for a feed entry under the key `name`, when the entry has
   * a link, a usable date and a title.
   */
  function Build(lib: DateLib, name: string, item: FeedItem): (r: Option<Entry>)
    ensures r.Some? <==> item.link.Some? && item.title.Some? && UsableDate(item).Some?
    ensures r.Some? ==>
      && r.value.blogName == name
      && item.link == Some(r.value.link)
      && item.title == Some(r.value.title)
      && r.value.published == lib.isoformat(ParsedDate(lib, UsableDate(item).value))
      && |r.value.summary| == Min(|item.summary.GetOr("")|, SummaryLimit)
      && r.value.summary == item.summary.GetOr("")[..|r.value.summary|]
  {
    if item.link.Some? && item.title.Some? && UsableDate(item).Some? then
      Some(Entry(name, item.title.value, item.link.value,
                 lib.isoformat(ParsedDate(lib, UsableDate(item).value)),
                 Take(item.summary.GetOr(""), SummaryLimit)))
    else None
  }

  /** What one feed entry does to the dictionary. */
  datatype Step =
    | Skip            // link already present, or no usable date
    | Insert(e: Entry)
    | Abort           // an attribute error: the rest of this feed is dropped

  /** Lines 74-86 for one entry; a missing `link` or `title` raises. */
  function ItemStep(lib: DateLib, index: LinkIndex, name: string, item: FeedItem): (s: Step)
    ensures s.Insert? <==> item.link.Some? && item.link.value !in index.records && Build(lib, name, item).Some?
    ensures s.Insert? ==> Build(lib, name, item) == Some(s.e)
    ensures s.Abort? <==>
      || item.link.None?
      || (item.link.value !in index.records && UsableDate(item).Some? && item.title.None?)
  {
    if item.link.None? then Abort
    else if item.link.value in index.records then Skip
    else if UsableDate(item).None? then Skip
    else if item.title.None? then Abort
    else Insert(Build(lib, name, item).value)
  }

  /** The dictionary and `new_entries_count` while the feeds are processed. */
  datatype Progress = Progress(index: LinkIndex, added: nat)

  /**
   * `q` continues `p`: keys are only appended, every record already present is
   * unchanged, and `added` grew by the number of appended keys.
   */
  ghost predicate Extends(p: Progress, q: Progress) {
    && q.index.Valid()
    && |p.index.order| <= |q.index.order|
    && q.index.order[..|p.index.order|] == p.index.order
    && q.added == p.added + (|q.index.order| - |p.index.order|)
    && (forall k :: k in p.index.records ==> k in q.index.records && q.index.records[k] == p.index.records[k])
  }

  lemma ExtendsTransitive(p: Progress, q: Progress, r: Progress)
    requires Extends(p, q) && Extends(q, r)
    ensures Extends(p, r)
  {
    assert r.index.order[..|p.index.order|] == r.index.order[..|q.index.order|][..|p.index.order|];
  }

  /** One feed's entries in order, stopping at the first one that raises. */
  function ProcessItems(lib: DateLib, p: Progress, name: string, items: seq<FeedItem>): Progress
    decreases |items|
  {
    if items == [] then p
    else
      var step := ItemStep(lib, p.index, name, items[0]);
      if step.Abort? then p else ProcessItems(lib, Apply(p, step), name, items[1..])
  }

  /** The dictionary and count after one entry's step. */
  function Apply(p: Progress, step: Step): Progress {
    match step
    case Insert(e) => Progress(p.index.Put(e), p.added + 1)
    case _ => p
  }

  /**
   * A feed only appends new links, each counted once, and leaves every
   * record already present as it was.
   */
  lemma {:induction false} ProcessItemsExtends(lib: DateLib, p: Progress, name: string, items: seq<FeedItem>)
    requires p.index.Valid()
    ensures Extends(p, ProcessItems(lib, p, name, items))
    decreases |items|
  {
    if items != [] {
      match ItemStep(lib, p.index, name, items[0])
      case Abort =>
      case Skip =>
        ProcessItemsExtends(lib, p, name, items[1..]);
      case Insert(e) =>
        var next := Progress(p.index.Put(e), p.added + 1);
        ProcessItemsExtends(lib, next, name, items[1..]);
        ExtendsTransitive(p, next, ProcessItems(lib, next, name, items[1..]));
    }
  }

  /** All feeds, in the order of the feed table. */
  function Overlay(lib: DateLib, start: Progress, feeds: seq<Feed>): Progress
    decreases |feeds|
  {
    if feeds == [] then start
    else
      var last := feeds[|feeds| - 1];
      ProcessItems(lib, Overlay(lib, start, feeds[..|feeds| - 1]), last.name, last.items)
  }

  lemma {:induction false} OverlayExtends(lib: DateLib, start: Progress, feeds: seq<Feed>)
    requires start.index.Valid()
    ensures Extends(start, Overlay(lib, start, feeds))
    decreases |feeds|
  {
    if feeds != [] {
      var n := |feeds| - 1;
      var before := Overlay(lib, start, feeds[..n]);
      OverlayExtends(lib, start, feeds[..n]);
      ProcessItemsExtends(lib, before, feeds[n].name, feeds[n].items);
      ExtendsTransitive(start, before, Overlay(lib, start, feeds));
    }
  }

  /** Lines 56-57: `existing_entries[entry['link']] = entry` for each stored entry. */
  function Seed(stored: seq<Entry>): (index: LinkIndex)
    ensures index.Valid()
  {
    if stored == [] then EmptyIndex
    else Seed(stored[..|stored| - 1]).Put(stored[|stored| - 1])
  }

  /** The dictionary after both phases, with `new_entries_count`. */
  function Merged(lib: DateLib, stored: seq<Entry>, feeds: seq<Feed>): (q: Progress)
    ensures Extends(Progress(Seed(stored), 0), q)
  {
    OverlayExtends(lib, Progress(Seed(stored), 0), feeds);
    Overlay(lib, Progress(Seed(stored), 0), feeds)
  }

  /** The dictionary's values after the sort on line 98. */
  function Ranked(lib: DateLib, stored: seq<Entry>, feeds: seq<Feed>): seq<Entry> {
    SortDesc(Merged(lib, stored, feeds).index.Values())
  }

  /** `e` is the last stored entry with its link. */
  ghost predicate FromHistory(e: Entry, stored: seq<Entry>) {
    exists i :: 0 <= i < |stored| && stored[i] == e && forall j :: i < j < |stored| ==> stored[j].link != e.link
  }

  /** `e` was built from some fetched entry of some feed. */
  ghost predicate FetchedFrom(lib: DateLib, e: Entry, feeds: seq<Feed>) {
    exists f, i :: 0 <= f < |feeds| && 0 <= i < |feeds[f].items| && Build(lib, feeds[f].name, feeds[f].items[i]) == Some(e)
  }

  /** Some entry of `stored` has link `k`. */
  ghost predicate HasLink(stored: seq<Entry>, k: string) {
    exists i :: 0 <= i < |stored| && stored[i].link == k
  }

  /** A link occurs in a list exactly when it occurs in all but the last entry or in the last. */
  lemma HasLinkSplit(stored: seq<Entry>, k: string)
    requires stored != []
    ensures HasLink(stored, k) <==> HasLink(stored[..|stored| - 1], k) || stored[|stored| - 1].link == k
  {
    var n := |stored| - 1;
    if HasLink(stored, k) && stored[n].link != k {
      var i :| 0 <= i < |stored| && stored[i].link == k;
      assert stored[..n][i].link == k;
    }
    if HasLink(stored[..n], k) {
      var i :| 0 <= i < n && stored[..n][i].link == k;
      assert stored[i].link == k;
    }
  }

  /** The position of the first entry of `stored` with link `k`, or `|stored|` when there is none. */
  function FirstIndex(stored: seq<Entry>, k: string): (r: nat)
    ensures r <= |stored|
    ensures r < |stored| ==> stored[r].link == k
    decreases |stored|
  {
    if stored == [] || stored[0].link == k then 0
    else 1 + FirstIndex(stored[1..], k)
  }

  /** No entry before `FirstIndex(stored, k)` has link `k`. */
  lemma {:induction false} FirstIndexIsFirst(stored: seq<Entry>, k: string, j: nat)
    requires j < FirstIndex(stored, k)
    ensures stored[j].link != k
    decreases |stored|
  {
    if j > 0 {
      FirstIndexIsFirst(stored[1..], k, j - 1);
      assert stored[1..][j - 1] == stored[j];
    }
  }

  /** Appending an entry moves no link's first position. */
  lemma FirstIndexAppend(stored: seq<Entry>, k: string)
    requires stored != []
    ensures var n := |stored| - 1;
      && (FirstIndex(stored[..n], k) < n ==> FirstIndex(stored, k) == FirstIndex(stored[..n], k))
      && (FirstIndex(stored[..n], k) == n ==> FirstIndex(stored, k) >= n)
  {
    var n := |stored| - 1;
    var prefix := stored[..n];
    var a := FirstIndex(prefix, k);
    var b := FirstIndex(stored, k);
    if b < n {
      // `b` is an occurrence inside the prefix, so the prefix's first one is not later.
      assert prefix[b].link == k;
      if b < a {
        FirstIndexIsFirst(prefix, k, b);
      }
    }
    if a < n && a < b {
      assert stored[a].link == prefix[a].link;
      FirstIndexIsFirst(stored, k, a);
    }
  }

  /** A link absent from all but the last entry first occurs at the last entry. */
  lemma FirstIndexNew(stored: seq<Entry>)
    requires stored != [] && !HasLink(stored[..|stored| - 1], stored[|stored| - 1].link)
    ensures FirstIndex(stored, stored[|stored| - 1].link) == |stored| - 1
  {
    var n := |stored| - 1;
    var k := stored[n].link;
    FirstIndexAppend(stored, k);
    if FirstIndex(stored, k) > n {
      FirstIndexIsFirst(stored, k, n);
    }
  }

  /** The keys after loading are exactly the stored links. */
  lemma {:induction false} SeedKeys(stored: seq<Entry>)
    ensures forall k :: k in Seed(stored).records <==> HasLink(stored, k)
  {
    if stored != [] {
      var n := |stored| - 1;
      SeedKeys(stored[..n]);
      assert Seed(stored) == Seed(stored[..n]).Put(stored[n]);
      forall k
        ensures k in Seed(stored).records <==> HasLink(stored, k)
      {
        HasLinkSplit(stored, k);
      }
    }
  }

  /** The last entry with a link stays the last one when an entry with another link follows. */
  lemma FromHistoryAppend(stored: seq<Entry>, e: Entry)
    requires stored != []
    requires FromHistory(e, stored[..|stored| - 1]) && stored[|stored| - 1].link != e.link
    ensures FromHistory(e, stored)
  {
    var n := |stored| - 1;
    var prefix := stored[..n];
    var i :| 0 <= i < |prefix| && prefix[i] == e && forall j :: i < j < |prefix| ==> prefix[j].link != e.link;
    assert stored[i] == e;
    forall j | i < j < |stored|
      ensures stored[j].link != e.link
    {
      if j < n {
        assert prefix[j] == stored[j];
      }
    }
  }

  /** The keys of `order` are links of `stored`, ordered by their first occurrence. */
  ghost predicate OrderedByFirst(stored: seq<Entry>, order: seq<string>) {
    && (forall i :: 0 <= i < |order| ==> FirstIndex(stored, order[i]) < |stored|)
    && (forall i, j :: 0 <= i < j < |order| ==> FirstIndex(stored, order[i]) < FirstIndex(stored, order[j]))
  }

  /** Links that occur before the last entry keep their first positions when it is appended. */
  lemma FirstIndicesKept(stored: seq<Entry>, order: seq<string>)
    requires stored != []
    requires forall i :: 0 <= i < |order| ==> FirstIndex(stored[..|stored| - 1], order[i]) < |stored| - 1
    ensures forall i :: 0 <= i < |order| ==> FirstIndex(stored, order[i]) == FirstIndex(stored[..|stored| - 1], order[i])
  {
    forall i | 0 <= i < |order|
      ensures FirstIndex(stored, order[i]) == FirstIndex(stored[..|stored| - 1], order[i])
    {
      FirstIndexAppend(stored, order[i]);
    }
  }

  /** Appending an entry keeps an order by first occurrence. */
  lemma OrderedByFirstAppend(stored: seq<Entry>, order: seq<string>)
    requires stored != [] && OrderedByFirst(stored[..|stored| - 1], order)
    ensures OrderedByFirst(stored, order)
  {
    FirstIndicesKept(stored, order);
  }

  /** An entry whose link first occurs at the end adds that link last. */
  lemma OrderedByFirstAppendNew(stored: seq<Entry>, order: seq<string>)
    requires stored != [] && OrderedByFirst(stored[..|stored| - 1], order)
    requires FirstIndex(stored, stored[|stored| - 1].link) == |stored| - 1
    ensures OrderedByFirst(stored, order + [stored[|stored| - 1].link])
  {
    var n := |stored| - 1;
    var longer := order + [stored[n].link];
    FirstIndicesKept(stored, order);
    forall i | 0 <= i < |longer|
      ensures FirstIndex(stored, longer[i]) < |stored|
      ensures i < |order| ==> FirstIndex(stored, longer[i]) < n
    {
      if i < |order| {
        assert longer[i] == order[i];
      }
    }
    forall i, j | 0 <= i < j < |longer|
      ensures FirstIndex(stored, longer[i]) < FirstIndex(stored, longer[j])
    {
      if j < |order| {
        assert longer[i] == order[i] && longer[j] == order[j];
      }
    }
  }

  /**
   * Loading orders the keys by the position of each link's first occurrence:
   * a repeated link keeps the place it was first inserted at.
   */
  lemma {:induction false} SeedFirstOrder(stored: seq<Entry>)
    ensures OrderedByFirst(stored, Seed(stored).order)
  {
    if stored != [] {
      var n := |stored| - 1;
      var prefix := stored[..n];
      var before := Seed(prefix);
      SeedFirstOrder(prefix);
      assert Seed(stored) == before.Put(stored[n]);
      if stored[n].link in before.records {
        OrderedByFirstAppend(stored, before.order);
      } else {
        SeedKeys(prefix);
        FirstIndexNew(stored);
        OrderedByFirstAppendNew(stored, before.order);
      }
    }
  }

  /** A repeated stored link keeps the value of its last occurrence. */
  lemma {:induction false} SeedKeepsLast(stored: seq<Entry>, k: string)
    requires k in Seed(stored).records
    ensures FromHistory(Seed(stored).records[k], stored)
  {
    var n := |stored| - 1;
    var prefix := stored[..n];
    var e := Seed(stored).records[k];
    assert Seed(stored) == Seed(prefix).Put(stored[n]);
    if k == stored[n].link {
      assert stored[n] == e;
    } else {
      SeedKeepsLast(prefix, k);
      FromHistoryAppend(stored, e);
    }
  }

  /** Some entry of `items` builds `e` under the key `name`. */
  ghost predicate BuiltFrom(lib: DateLib, name: string, items: seq<FeedItem>, e: Entry) {
    exists i :: 0 <= i < |items| && Build(lib, name, items[i]) == Some(e)
  }

  lemma BuiltFromTail(lib: DateLib, name: string, items: seq<FeedItem>, e: Entry)
    requires items != [] && BuiltFrom(lib, name, items[1..], e)
    ensures BuiltFrom(lib, name, items, e)
  {
    var i :| 0 <= i < |items[1..]| && Build(lib, name, items[1..][i]) == Some(e);
    assert items[i + 1] == items[1..][i];
  }

  /** Every key a feed adds maps to a record built from one of its entries. */
  lemma {:induction false} ProcessItemsProvenance(lib: DateLib, p: Progress, name: string, items: seq<FeedItem>, k: string)
    requires p.index.Valid()
    requires k in ProcessItems(lib, p, name, items).index.records && k !in p.index.records
    ensures BuiltFrom(lib, name, items, ProcessItems(lib, p, name, items).index.records[k])
    decreases |items|
  {
    var q := ProcessItems(lib, p, name, items);
    assert items != [];
    match ItemStep(lib, p.index, name, items[0])
    case Abort =>
    case Skip =>
      ProcessItemsProvenance(lib, p, name, items[1..], k);
      BuiltFromTail(lib, name, items, q.index.records[k]);
    case Insert(e) =>
      var next := Progress(p.index.Put(e), p.added + 1);
      if k == e.link {
        ProcessItemsExtends(lib, next, name, items[1..]);
        assert q.index.records[k] == e;
        assert Build(lib, name, items[0]) == Some(e);
      } else {
        ProcessItemsProvenance(lib, next, name, items[1..], k);
        BuiltFromTail(lib, name, items, q.index.records[k]);
      }
  }

  /** Every key the feeds add maps to a record built from a fetched entry. */
  lemma {:induction false} OverlayProvenance(lib: DateLib, start: Progress, feeds: seq<Feed>, k: string)
    requires start.index.Valid()
    requires k in Overlay(lib, start, feeds).index.records && k !in start.index.records
    ensures FetchedFrom(lib, Overlay(lib, start, feeds).index.records[k], feeds)
    decreases |feeds|
  {
    var n := |feeds| - 1;
    var before := Overlay(lib, start, feeds[..n]);
    var q := Overlay(lib, start, feeds);
    var e := q.index.records[k];
    OverlayExtends(lib, start, feeds[..n]);
    ProcessItemsExtends(lib, before, feeds[n].name, feeds[n].items);
    if k in before.index.records {
      assert e == before.index.records[k];
      OverlayProvenance(lib, start, feeds[..n], k);
      var f, i :| 0 <= f < |feeds[..n]| && 0 <= i < |feeds[..n][f].items|
        && Build(lib, feeds[..n][f].name, feeds[..n][f].items[i]) == Some(e);
      assert feeds[..n][f] == feeds[f];
    } else {
      ProcessItemsProvenance(lib, before, feeds[n].name, feeds[n].items, k);
      var i :| 0 <= i < |feeds[n].items| && Build(lib, feeds[n].name, feeds[n].items[i]) == Some(e);
      assert 0 <= n < |feeds| && Build(lib, feeds[n].name, feeds[n].items[i]) == Some(e);
    }
  }

  /** A stored link keeps its stored record: fetched entries never replace it. */
  lemma HistoryWins(lib: DateLib, stored: seq<Entry>, feeds: seq<Feed>, k: string)
    requires k in Seed(stored).records
    ensures k in Merged(lib, stored, feeds).index.records
    ensures Merged(lib, stored, feeds).index.records[k] == Seed(stored).records[k]
    ensures FromHistory(Merged(lib, stored, feeds).index.records[k], stored)
  {
    SeedKeepsLast(stored, k);
  }

  /** Every record of the merged dictionary is stored history or a fetched entry. */
  lemma {:induction false} RecordProvenance(lib: DateLib, stored: seq<Entry>, feeds: seq<Feed>, e: Entry)
    requires e in Merged(lib, stored, feeds).index.Values()
    ensures FromHistory(e, stored) || FetchedFrom(lib, e, feeds)
  {
    var seeded := Seed(stored);
    var merged := Merged(lib, stored, feeds).index;
    var i :| 0 <= i < |merged.order| && merged.Values()[i] == e;
    var k := merged.order[i];
    if k in seeded.records {
      SeedKeepsLast(stored, k);
    } else {
      OverlayProvenance(lib, Progress(seeded, 0), feeds, k);
    }
  }

  /** The keys a distinct order has beyond its first `n` are exactly its suffix. */
  lemma SuffixIsNew(whole: seq<string>, n: nat)
    requires Distinct(whole) && n <= |whole|
    ensures Distinct(whole[n..])
    ensures forall k :: k in whole[n..] <==> k in whole && k !in whole[..n]
  {
    var suffix := whole[n..];
    forall i, j | 0 <= i < j < |suffix|
      ensures suffix[i] != suffix[j]
    {
      assert suffix[i] == whole[n + i] && suffix[j] == whole[n + j];
    }
    forall k | k in suffix
      ensures k in whole && k !in whole[..n]
    {
      var i :| 0 <= i < |suffix| && suffix[i] == k;
      assert whole[n + i] == k;
      forall j | 0 <= j < n
        ensures whole[..n][j] != k
      {
        assert whole[..n][j] == whole[j];
      }
    }
    forall k | k in whole && k !in whole[..n]
      ensures k in suffix
    {
      var i :| 0 <= i < |whole| && whole[i] == k;
      forall j | 0 <= j < n
        ensures whole[j] != k
      {
        assert whole[..n][j] == whole[j];
      }
      assert suffix[i - n] == k;
    }
  }

  /** Along a continuation, `added` grows by the number of new keys. */
  lemma ExtendsCountsNewKeys(p: Progress, q: Progress)
    requires p.index.Valid() && Extends(p, q)
    ensures q.added - p.added == |q.index.records.Keys - p.index.records.Keys|
  {
    var n := |p.index.order|;
    var suffix := q.index.order[n..];
    SuffixIsNew(q.index.order, n);
    assert forall k :: k in q.index.records.Keys - p.index.records.Keys <==> k in suffix;
    DistinctCardinality(suffix, q.index.records.Keys - p.index.records.Keys);
  }

  /** `new_entries_count` is the number of links that loading did not supply. */
  lemma NewEntriesCount(lib: DateLib, stored: seq<Entry>, feeds: seq<Feed>)
    ensures Merged(lib, stored, feeds).added
         == |Merged(lib, stored, feeds).index.records.Keys - Seed(stored).records.Keys|
  {
    ExtendsCountsNewKeys(Progress(Seed(stored), 0), Merged(lib, stored, feeds));
  }

  /** Equal `published` strings keep the dictionary's insertion order. */
  lemma RankedStable(lib: DateLib, stored: seq<Entry>, feeds: seq<Feed>, key: string)
    ensures WithKey(Ranked(lib, stored, feeds), key) == WithKey(Merged(lib, stored, feeds).index.Values(), key)
  {
    SortDescStable(Merged(lib, stored, feeds).index.Values(), key);
  }

  /**
   * What line 104 keeps: the sorted list's first `MaxEntriesLimit` entries,
   * sorted, without a repeated link, none of them earlier than a dropped one.
   */
  lemma OutputProperties(lib: DateLib, stored: seq<Entry>, feeds: seq<Feed>)
    ensures var ranked := Ranked(lib, stored, feeds);
            var final := Take(ranked, MaxEntriesLimit);
      && |final| == Min(|Merged(lib, stored, feeds).index.records|, MaxEntriesLimit)
      && final == ranked[..|final|]
      && SortedDesc(final)
      && DistinctLinks(final)
      && (forall i, j :: 0 <= i < |final| <= j < |ranked| ==> StringOrder.Le(ranked[j].published, final[i].published))
  {
    var values := Merged(lib, stored, feeds).index.Values();
    SortDescSorted(values);
    SortDescDistinct(values);
  }

  /** Every entry written back is stored history or built from a fetched entry. */
  lemma OutputProvenance(lib: DateLib, stored: seq<Entry>, feeds: seq<Feed>)
    ensures forall e :: e in Take(Ranked(lib, stored, feeds), MaxEntriesLimit) ==>
      FromHistory(e, stored) || FetchedFrom(lib, e, feeds)
  {
    var values := Merged(lib, stored, feeds).index.Values();
    var ranked := Ranked(lib, stored, feeds);
    forall e | e in Take(ranked, MaxEntriesLimit)
      ensures FromHistory(e, stored) || FetchedFrom(lib, e, feeds)
    {
      assert e in values;
      RecordProvenance(lib, stored, feeds, e);
    }
  }

  /** Lines 56-57: the loop that loads the stored list into the dictionary. */
  method LoadStored(stored: seq<Entry>) returns (existing: LinkIndex)
    ensures existing == Seed(stored)
    ensures existing.Valid()
  {
    existing := EmptyIndex;
    for i := 0 to |stored|
      invariant existing == Seed(stored[..i])
    {
      assert stored[..i + 1][..i] == stored[..i];
      existing := existing.Put(stored[i]);
    }
    assert stored[..|stored|] == stored;
  }

  /**
   * Lines 74-86 for one entry. `stop` is set when the entry raises an
   * attribute error, which ends its feed.
   */
  method AddItem(lib: DateLib, existing: LinkIndex, count: nat, name: string, item: FeedItem)
    returns (existing': LinkIndex, count': nat, stop: bool)
    requires existing.Valid()
    ensures stop <==> ItemStep(lib, existing, name, item).Abort?
    ensures Progress(existing', count') == Apply(Progress(existing, count), ItemStep(lib, existing, name, item))
    ensures existing'.Valid()
  {
    existing', count', stop := existing, count, false;
    if item.link.None? {
      return existing, count, true;
    }
    var link := item.link.value;
    if link !in existing.records {
      var publishedStr := if item.published.Some? then item.published else item.updated;
      if publishedStr.Some? && publishedStr.value != "" {
        var dt := ParseDate(lib, publishedStr.value);
        if item.title.None? {
          return existing, count, true;
        }
        var e := Entry(name, item.title.value, link, lib.isoformat(dt),
                       Take(item.summary.GetOr(""), SummaryLimit));
        existing' := existing.Put(e);
        count' := count + 1;
      }
    }
  }

  /**
   * Lines 72-87 for one feed: its entries in order, until an attribute error
   * ends the feed (the `try` on line 66).
   */
  method AddFeedItems(lib: DateLib, existing: LinkIndex, count: nat, feed: Feed)
    returns (existing': LinkIndex, count': nat)
    requires existing.Valid()
    ensures Progress(existing', count') == ProcessItems(lib, Progress(existing, count), feed.name, feed.items)
    ensures existing'.Valid()
  {
    existing', count' := existing, count;
    ghost var goal := ProcessItems(lib, Progress(existing, count), feed.name, feed.items);
    var j := 0;
    while j < |feed.items|
      invariant j <= |feed.items|
      invariant existing'.Valid()
      invariant ProcessItems(lib, Progress(existing', count'), feed.name, feed.items[j..]) == goal
    {
      assert feed.items[j..][0] == feed.items[j] && feed.items[j..][1..] == feed.items[j + 1..];
      var stop;
      existing', count', stop := AddItem(lib, existing', count', feed.name, feed.items[j]);
      if stop {
        return;
      }
      j := j + 1;
    }
  }

  /**
   * The merge, dedup, sort and truncation of `main` (lines 50-106). `stored`
   * is the list read from the data file (empty when it is missing or
   * unreadable); `feeds` holds each feed's parsed entries in table order.
   * Returns the list written back and `new_entries_count`.
   */
  method Merge(lib: DateLib, stored: seq<Entry>, feeds: seq<Feed>) returns (final: seq<Entry>, newCount: nat)
    ensures final == Take(Ranked(lib, stored, feeds), MaxEntriesLimit)
    ensures newCount == |Merged(lib, stored, feeds).index.records.Keys - Seed(stored).records.Keys|
    ensures |final| == Min(|Merged(lib, stored, feeds).index.records|, MaxEntriesLimit)
    ensures SortedDesc(final) && DistinctLinks(final)
    ensures forall e :: e in final ==> FromHistory(e, stored) || FetchedFrom(lib, e, feeds)
  {
    // Step 1: the stored list.
    var existing := LoadStored(stored);
    ghost var seeded := existing;

    // Step 2: every feed, in table order.
    newCount := 0;
    for f := 0 to |feeds|
      invariant existing.Valid()
      invariant Progress(existing, newCount) == Overlay(lib, Progress(seeded, 0), feeds[..f])
    {
      assert feeds[..f + 1][..f] == feeds[..f];
      existing, newCount := AddFeedItems(lib, existing, newCount, feeds[f]);
    }
    assert feeds[..|feeds|] == feeds;

    // Steps 3 to 5: list the values, sort them newest first, cut to the limit.
    var allEntries := existing.Values();
    allEntries := SortDesc(allEntries);
    if |allEntries| > MaxEntriesLimit {
      final := allEntries[..MaxEntriesLimit];
    } else {
      final := allEntries;
    }
    NewEntriesCount(lib, stored, feeds);
    OutputProperties(lib, stored, feeds);
    OutputProvenance(lib, stored, feeds);
  }

  /** Loading a list without repeated links lists it back unchanged. */
  lemma {:induction false} SeedValuesOfDistinct(stored: seq<Entry>)
    requires DistinctLinks(stored)
    ensures Seed(stored).Values() == stored
  {
    if stored != [] {
      var n := |stored| - 1;
      var prefix := stored[..n];
      assert stored == prefix + [stored[n]];
      assert DistinctLinks(prefix) by {
        forall i, j | 0 <= i < j < |prefix|
          ensures prefix[i].link != prefix[j].link
        {
          assert prefix[i] == stored[i] && prefix[j] == stored[j];
        }
      }
      SeedValuesOfDistinct(prefix);
      SeedKeys(prefix);
      var before := Seed(prefix);
      assert Seed(stored) == before.Put(stored[n]);
      assert stored[n].link !in before.records by {
        forall i | 0 <= i < |prefix|
          ensures prefix[i].link != stored[n].link
        {
          assert prefix[i] == stored[i];
        }
      }
      PutNewValues(before, stored[n]);
      assert Seed(stored).Values() == before.Values() + [stored[n]];
    }
  }

  /** A feed whose every link is already present changes nothing. */
  lemma {:induction false} KnownItemsChangeNothing(lib: DateLib, p: Progress, name: string, items: seq<FeedItem>)
    requires p.index.Valid()
    requires forall i :: 0 <= i < |items| && items[i].link.Some? ==> items[i].link.value in p.index.records
    ensures ProcessItems(lib, p, name, items) == p
    decreases |items|
  {
    if items != [] && ItemStep(lib, p.index, name, items[0]).Skip? {
      KnownItemsChangeNothing(lib, p, name, items[1..]);
    }
  }

  lemma {:induction false} KnownFeedsChangeNothing(lib: DateLib, start: Progress, feeds: seq<Feed>)
    requires start.index.Valid()
    requires forall f, i :: 0 <= f < |feeds| && 0 <= i < |feeds[f].items| && feeds[f].items[i].link.Some?
               ==> feeds[f].items[i].link.value in start.index.records
    ensures Overlay(lib, start, feeds) == start
    decreases |feeds|
  {
    if feeds != [] {
      var n := |feeds| - 1;
      KnownFeedsChangeNothing(lib, start, feeds[..n]);
      KnownItemsChangeNothing(lib, start, feeds[n].name, feeds[n].items);
    }
  }

  /**
   * A run that fetches no new link writes back the list it read, when that
   * list is what a run produces: sorted, without a repeated link, within the
   * limit. Its `new_entries_count` is 0.
   */
  lemma RerunIsStable(lib: DateLib, stored: seq<Entry>, feeds: seq<Feed>)
    requires DistinctLinks(stored) && SortedDesc(stored) && |stored| <= MaxEntriesLimit
    requires forall f, i :: 0 <= f < |feeds| && 0 <= i < |feeds[f].items| && feeds[f].items[i].link.Some?
               ==> HasLink(stored, feeds[f].items[i].link.value)
    ensures Take(Ranked(lib, stored, feeds), MaxEntriesLimit) == stored
    ensures Merged(lib, stored, feeds).added == 0
  {
    SeedKeys(stored);
    KnownFeedsChangeNothing(lib, Progress(Seed(stored), 0), feeds);
    SeedValuesOfDistinct(stored);
    SortDescOfSorted(stored);
  }
}
