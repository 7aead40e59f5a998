/**
 * `all_entries.sort(key=lambda x: x["published"], reverse=True)`: a stable
 * sort into non-increasing order of the `published` string.
 */
module Ranking {
  import opened Records
  import StringOrder

  /** Non-increasing by `published`, compared as Python strings. */
  ghost predicate SortedDesc(s: seq<Entry>) {
    forall i, j :: 0 <= i < j < |s| ==> StringOrder.Le(s[j].published, s[i].published)
  }

  /** The entries of `s` whose `published` is `key`, in their order in `s`. */
  function WithKey(s: seq<Entry>, key: string): seq<Entry> {
    if s == [] then []
    else (if s[0].published == key then [s[0]] else []) + WithKey(s[1..], key)
  }

  /**
   * Insert `x` in front of the first entry that is not later than it, so that
   * `x` stays ahead of the entries with the same key.
   */
  function InsertDesc(x: Entry, t: seq<Entry>): (r: seq<Entry>)
    ensures multiset(r) == multiset{x} + multiset(t)
    ensures forall e :: e in r <==> e == x || e in t
  {
    if t == [] || StringOrder.Le(t[0].published, x.published) then [x] + t
    else
      assert t == [t[0]] + t[1..];
      [t[0]] + InsertDesc(x, t[1..])
  }

  /** The sorted list; insertion sort stands for Python's stable sort. */
  function SortDesc(s: seq<Entry>): (r: seq<Entry>)
    ensures multiset(r) == multiset(s)
    ensures |r| == |s|
    ensures forall e :: e in r <==> e in s
  {
    if s == [] then []
    else
      assert s == [s[0]] + s[1..];
      InsertDesc(s[0], SortDesc(s[1..]))
  }

  lemma {:induction false} InsertDescSorted(x: Entry, t: seq<Entry>)
    requires SortedDesc(t)
    ensures SortedDesc(InsertDesc(x, t))
  {
    var r := InsertDesc(x, t);
    if t == [] {
    } else if StringOrder.Le(t[0].published, x.published) {
      forall j | 0 < j < |r|
        ensures StringOrder.Le(r[j].published, x.published)
      {
        if j > 1 {
          StringOrder.LeTransitive(r[j].published, t[0].published, x.published);
        }
      }
    } else {
      var rest := InsertDesc(x, t[1..]);
      InsertDescSorted(x, t[1..]);
      StringOrder.LeTotal(t[0].published, x.published);
      forall j | 0 <= j < |rest|
        ensures StringOrder.Le(rest[j].published, t[0].published)
      {
        assert rest[j] in rest;
        if rest[j] != x {
          var m :| 0 <= m < |t[1..]| && t[1..][m] == rest[j];
          assert t[m + 1] == rest[j];
        }
      }
      assert r == [t[0]] + rest;
    }
  }

  /** The result is sorted. */
  lemma {:induction false} SortDescSorted(s: seq<Entry>)
    ensures SortedDesc(SortDesc(s))
  {
    if s != [] {
      SortDescSorted(s[1..]);
      InsertDescSorted(s[0], SortDesc(s[1..]));
    }
  }

  lemma {:induction false} InsertDescWithKey(x: Entry, t: seq<Entry>, key: string)
    ensures WithKey(InsertDesc(x, t), key) == (if x.published == key then [x] else []) + WithKey(t, key)
  {
    if t == [] || StringOrder.Le(t[0].published, x.published) {
      assert ([x] + t)[1..] == t;
    } else {
      var rest := InsertDesc(x, t[1..]);
      InsertDescWithKey(x, t[1..], key);
      assert ([t[0]] + rest)[1..] == rest;
      if x.published == key {
        StringOrder.LeReflexive(x.published);
        assert t[0].published != key;
      }
    }
  }

  /** Stability: entries with equal keys keep their relative order. */
  lemma {:induction false} SortDescStable(s: seq<Entry>, key: string)
    ensures WithKey(SortDesc(s), key) == WithKey(s, key)
  {
    if s != [] {
      SortDescStable(s[1..], key);
      InsertDescWithKey(s[0], SortDesc(s[1..]), key);
    }
  }

  lemma {:induction false} InsertDescDistinct(x: Entry, t: seq<Entry>)
    requires DistinctLinks(t)
    requires forall e :: e in t ==> e.link != x.link
    ensures DistinctLinks(InsertDesc(x, t))
  {
    if t == [] || StringOrder.Le(t[0].published, x.published) {
    } else {
      var rest := InsertDesc(x, t[1..]);
      InsertDescDistinct(x, t[1..]);
      forall j | 0 <= j < |rest|
        ensures rest[j].link != t[0].link
      {
        assert rest[j] in rest;
        if rest[j] != x {
          var m :| 0 <= m < |t[1..]| && t[1..][m] == rest[j];
          assert t[m + 1] == rest[j];
        }
      }
      assert InsertDesc(x, t) == [t[0]] + rest;
    }
  }

  /** Sorting never puts two entries with the same link into the list. */
  lemma {:induction false} SortDescDistinct(s: seq<Entry>)
    requires DistinctLinks(s)
    ensures DistinctLinks(SortDesc(s))
  {
    if s != [] {
      SortDescDistinct(s[1..]);
      forall e | e in SortDesc(s[1..])
        ensures e.link != s[0].link
      {
        var m :| 0 <= m < |s[1..]| && s[1..][m] == e;
        assert s[m + 1] == e;
      }
      InsertDescDistinct(s[0], SortDesc(s[1..]));
    }
  }

  /** Sorting an already sorted list leaves it as it is. */
  lemma {:induction false} SortDescOfSorted(s: seq<Entry>)
    requires SortedDesc(s)
    ensures SortDesc(s) == s
  {
    if s != [] {
      SortDescOfSorted(s[1..]);
      assert s == [s[0]] + s[1..];
    }
  }
}
