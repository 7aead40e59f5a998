/**
 * The records `fetch_rss.py` handles: a stored article, a feed entry as the
 * feed parser hands it over, and the insertion-ordered dictionary keyed by
 * link that the merge builds.
 */
module Records {
  import opened Wrappers

  /** A stored article: the JSON object written for each entry. */
  datatype Entry = Entry(
    blogName: string, title: string, link: string,
    published: string, summary: string)

  /** A feed entry; a field the feed did not carry is None. */
  datatype FeedItem = FeedItem(
    link: Option<string>, title: Option<string>,
    published: Option<string>, updated: Option<string>,
    summary: Option<string>)

  /**
   * One configured feed: its key in the feed table and the entries the parser
   * returned for it, in document order.
   */
  datatype Feed = Feed(name: string, items: seq<FeedItem>)

  /** No two entries of `s` share a link. */
  ghost predicate DistinctLinks(s: seq<Entry>) {
    forall i, j :: 0 <= i < j < |s| ==> s[i].link != s[j].link
  }

  /** No key occurs twice in `s`. */
  ghost predicate Distinct(s: seq<string>) {
    forall i, j :: 0 <= i < j < |s| ==> s[i] != s[j]
  }

  /**
   * A Python `dict` from link to entry. `order` is the dictionary's
   * insertion order, `records` its contents.
   */
  datatype LinkIndex = LinkIndex(order: seq<string>, records: map<string, Entry>) {

    /** The keys are the distinct links in `order`, each keyed by its own link. */
    ghost predicate Valid() {
      && Distinct(order)
      && (forall k :: k in records <==> k in order)
      && (forall k :: k in records ==> records[k].link == k)
    }

    /**
     * `d[e.link] = e`: a new key goes to the end of the order, an existing key
     * keeps its position and takes the new value.
     */
    function Put(e: Entry): (r: LinkIndex)
      ensures Valid() ==> r.Valid()
      ensures r.records == records[e.link := e]
      ensures e.link in records ==> r.order == order
      ensures e.link !in records ==> r.order == order + [e.link]
    {
      if e.link in records then LinkIndex(order, records[e.link := e])
      else LinkIndex(order + [e.link], records[e.link := e])
    }

    /** `list(d.values())`: the entries in insertion order, no link twice. */
    function Values(): (vs: seq<Entry>)
      requires Valid()
      ensures |vs| == |order| == |records|
      ensures forall i :: 0 <= i < |order| ==> vs[i] == records[order[i]]
      ensures DistinctLinks(vs)
    {
      DistinctCardinality(order, records.Keys);
      seq(|order|, i requires 0 <= i < |order| => records[order[i]])
    }
  }

  /** Adding a new key appends its record to the values. */
  lemma PutNewValues(index: LinkIndex, e: Entry)
    requires index.Valid() && e.link !in index.records
    ensures index.Put(e).Values() == index.Values() + [e]
  {
    var after := index.Put(e);
    var vs := after.Values();
    forall i | 0 <= i < |index.order|
      ensures vs[i] == index.Values()[i]
    {
      assert index.order[i] in index.records;
    }
  }

  const EmptyIndex: LinkIndex := LinkIndex([], map[])

  /** A sequence without repetitions has as many elements as the set of its elements. */
  lemma {:induction false} DistinctCardinality(s: seq<string>, keys: set<string>)
    requires Distinct(s)
    requires forall k :: k in keys <==> k in s
    ensures |keys| == |s|
  {
    if s != [] {
      var rest := keys - {s[0]};
      forall k
        ensures k in rest <==> k in s[1..]
      {
        if k in s[1..] {
          var i :| 0 <= i < |s[1..]| && s[1..][i] == k;
          assert s[i + 1] == k;
        }
        if k in rest {
          var i :| 0 <= i < |s| && s[i] == k;
          assert i != 0;
          assert s[1..][i - 1] == k;
        }
      }
      DistinctCardinality(s[1..], rest);
    }
  }
}
