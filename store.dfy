/**
 * The bookmark record store (`URLEntry` and `PBMState`): a map from URL to a
 * display name and a tag set, the tag filters the query engine reads, and the
 * n-ary set operators `and`/`or`.
 */
module Store {
  import opened Wrappers

  /**
   * A stored bookmark. `tags` is a JavaScript `Set`, which keeps its elements
   * in first-insertion order: modelled as a duplicate-free sequence.
   */
  datatype Entry = Entry(name: string, tags: seq<string>)

  /** A snapshot of `PBMState.urls`. */
  type Urls = map<string, Entry>

  predicate Distinct(s: seq<string>)
  {
    forall i, j :: 0 <= i < j < |s| ==> s[i] != s[j]
  }

  /** `new Set(s)`: the elements of `s`, each once, in order of first occurrence. */
  function Dedup(s: seq<string>): (r: seq<string>)
    ensures Distinct(r)
    ensures forall x :: x in r <==> x in s
    ensures InFirstOrder(s, r)
    ensures |r| <= |s|
  {
    if s == [] then []
    else
      var init, last := s[..|s| - 1], s[|s| - 1];
      var d := Dedup(init);
      DedupOrderStep(s, d);
      if last in d then d else d + [last]
  }

  /** The elements of `r` occur in `s`, and `r` lists them in the order of their first occurrence there. */
  predicate InFirstOrder(s: seq<string>, r: seq<string>)
  {
    && (forall x :: x in r ==> x in s)
    && forall i, j :: 0 <= i < j < |r| ==> FirstIndex(s, r[i]) < FirstIndex(s, r[j])
  }

  /** Appending one element keeps the order of first occurrences, and a new element comes last. */
  lemma DedupOrderStep(s: seq<string>, d: seq<string>)
    requires |s| >= 1
    requires forall x :: x in d <==> x in s[..|s| - 1]
    requires InFirstOrder(s[..|s| - 1], d)
    ensures InFirstOrder(s, d)
    ensures s[|s| - 1] !in d ==> InFirstOrder(s, d + [s[|s| - 1]])
  {
    FirstIndexPrefix(s, |s| - 1);
    assert forall x :: x in s[..|s| - 1] ==> x in s;
    if s[|s| - 1] !in d {
      FirstIndexLast(s);
      var r := d + [s[|s| - 1]];
      assert forall x :: x in r ==> x in s;
      forall i, j | 0 <= i < j < |r| ensures FirstIndex(s, r[i]) < FirstIndex(s, r[j]) {
        assert r[i] == d[i];
        if j < |d| { assert r[j] == d[j]; }
      }
    }
  }

  /** The position of the first occurrence of `x` in `s`. */
  function FirstIndex(s: seq<string>, x: string): (i: int)
    requires x in s
    ensures 0 <= i < |s| && s[i] == x && x !in s[..i]
  {
    if s[0] == x then 0
    else
      var i := 1 + FirstIndex(s[1..], x);
      assert s[..i] == [s[0]] + s[1..][..i - 1];
      i
  }

  /** The first occurrence is the only position with `x` and no `x` before it. */
  lemma FirstIndexUnique(s: seq<string>, x: string, i: int)
    requires 0 <= i < |s| && s[i] == x && x !in s[..i]
    ensures FirstIndex(s, x) == i
  {
    var f := FirstIndex(s, x);
    assert forall k :: 0 <= k < i ==> s[..i][k] == s[k];
    assert forall k :: 0 <= k < f ==> s[..f][k] == s[k];
  }

  /** Within a prefix, first occurrences are where they are in the whole list. */
  lemma FirstIndexPrefix(s: seq<string>, k: int)
    requires 0 <= k <= |s|
    ensures forall x :: x in s[..k] ==> FirstIndex(s[..k], x) == FirstIndex(s, x)
  {
    forall x | x in s[..k] ensures FirstIndex(s[..k], x) == FirstIndex(s, x) {
      var i := FirstIndex(s[..k], x);
      assert s[..k][..i] == s[..i];
      FirstIndexUnique(s, x, i);
    }
  }

  /** A last element that occurs nowhere before has its first occurrence after every other element's. */
  lemma FirstIndexLast(s: seq<string>)
    requires |s| >= 1 && s[|s| - 1] !in s[..|s| - 1]
    ensures FirstIndex(s, s[|s| - 1]) == |s| - 1
    ensures forall x :: x in s[..|s| - 1] ==> FirstIndex(s, x) < |s| - 1
  {
    FirstIndexUnique(s, s[|s| - 1], |s| - 1);
    FirstIndexPrefix(s, |s| - 1);
  }

  /** A list that is already duplicate-free goes into a set unchanged and in order. */
  lemma {:induction false} DedupDistinct(s: seq<string>)
    requires Distinct(s)
    ensures Dedup(s) == s
  {
    if s != [] {
      var init := s[..|s| - 1];
      assert Distinct(init);
      DedupDistinct(init);
      assert s[|s| - 1] !in init;
      assert Dedup(s) == Dedup(init) + [s[|s| - 1]];
      assert init + [s[|s| - 1]] == s;
    }
  }

  /** The `URLEntry` constructor: the tags become a set. */
  function NewEntry(name: string, tags: seq<string>): (e: Entry)
    ensures e.name == name
    ensures Distinct(e.tags) && forall t :: t in e.tags <==> t in tags
  {
    Entry(name, Dedup(tags))
  }

  // ---------------------------------------------------------------------------
  // Lookups and tag filters

  /** `collectionHas(url)`: `url` is a stored key. */
  predicate CollectionHas(urls: Urls, url: string)
  {
    url in urls
  }

  /** `getAllUrls()`: the stored keys (their enumeration order is not modelled). */
  function AllUrls(urls: Urls): (r: set<string>)
    ensures forall u :: u in r <==> CollectionHas(urls, u)
  {
    urls.Keys
  }

  /** `getUrl(url)`: the stored entry, or `undefined`. */
  function GetUrl(urls: Urls, url: string): (r: Option<Entry>)
    ensures r.Some? <==> CollectionHas(urls, url)
    ensures r.Some? ==> r.value == urls[url]
  {
    if url in urls then Some(urls[url]) else None
  }

  /** `withTag(tag)`: the stored URLs whose tag set has `tag`. */
  function WithTag(urls: Urls, tag: string): (r: set<string>)
    ensures forall u :: u in r <==> u in urls && tag in urls[u].tags
  {
    set u | u in urls && tag in urls[u].tags
  }

  /** `withoutTag(tag)`: the stored URLs whose tag set lacks `tag`. */
  function WithoutTag(urls: Urls, tag: string): (r: set<string>)
    ensures forall u :: u in r <==> u in urls && tag !in urls[u].tags
  {
    set u | u in urls && tag !in urls[u].tags
  }

  /** For a fixed tag, `withTag` and `withoutTag` partition the stored URLs. */
  lemma TagPartition(urls: Urls, tag: string)
    ensures WithTag(urls, tag) * WithoutTag(urls, tag) == {}
    ensures WithTag(urls, tag) + WithoutTag(urls, tag) == AllUrls(urls)
  {
    var w, wo := WithTag(urls, tag), WithoutTag(urls, tag);
    assert forall u :: u in w + wo <==> u in AllUrls(urls);
    assert forall u :: u !in w * wo;
  }

  // ---------------------------------------------------------------------------
  // Updates

  /** The stored name: `name ? name : url` (undefined and "" are falsy). */
  function DefaultName(url: string, name: Option<string>): (r: string)
    ensures name.Some? && name.value != "" ==> r == name.value
    ensures name.None? || name.value == "" ==> r == url
  {
    if name.Some? && name.value != "" then name.value else url
  }

  /** The map after `setUrl(url, name, tags)`. */
  function Upserted(urls: Urls, url: string, name: Option<string>, tags: Option<seq<string>>): (r: Urls)
    ensures CollectionHas(r, url)
    ensures r[url].name == DefaultName(url, name)
    ensures Distinct(r[url].tags)
    ensures forall t :: t in r[url].tags <==> tags.Some? && t in tags.value
    ensures forall u :: u != url ==> GetUrl(r, u) == GetUrl(urls, u)
  {
    urls[url := NewEntry(DefaultName(url, name), if tags.Some? then tags.value else [])]
  }

  /** The map after `removeUrl(url)`. */
  function Removed(urls: Urls, url: string): (r: Urls)
    ensures !CollectionHas(r, url) && url !in AllUrls(r)
    ensures forall u :: u != url ==> GetUrl(r, u) == GetUrl(urls, u)
  {
    urls - {url}
  }

  /** Repeating the same `setUrl` call leaves the same store. */
  lemma UpsertIdempotent(urls: Urls, url: string, name: Option<string>, tags: Option<seq<string>>)
    ensures Upserted(Upserted(urls, url, name, tags), url, name, tags) == Upserted(urls, url, name, tags)
  {
  }

  /** Removing a URL that was just set gives back the store without that URL. */
  lemma RemoveAfterUpsert(urls: Urls, url: string, name: Option<string>, tags: Option<seq<string>>)
    ensures Removed(Upserted(urls, url, name, tags), url) == Removed(urls, url)
  {
  }

  /** The global record collection `PBMState.urls`, updated in place. */
  class PBMState {
    var urls: Urls

    constructor ()
      ensures urls == map[]
    {
      urls := map[];
    }

    /** `setUrl(url, name, tags)`: insert or replace the record for `url`. */
    method SetUrl(url: string, name: Option<string>, tags: Option<seq<string>>)
      modifies this
      ensures urls == Upserted(old(urls), url, name, tags)
    {
      urls := urls[url := NewEntry(DefaultName(url, name), if tags.Some? then tags.value else [])];
    }

    /** `removeUrl(url)`: delete the record for `url`, if any. */
    method RemoveUrl(url: string)
      modifies this
      ensures urls == Removed(old(urls), url)
    {
      urls := urls - {url};
    }
  }

  // ---------------------------------------------------------------------------
  // Set operators

  /**
   * `and(...urlSets)`: starts from the last argument and intersects the
   * others into it in order; no argument at all gives `undefined`.
   */
  method And(urlSets: seq<set<string>>) returns (base: Option<set<string>>)
    ensures base.None? <==> |urlSets| == 0
    ensures base.Some? ==> forall u :: u in base.value <==> forall k :: 0 <= k < |urlSets| ==> u in urlSets[k]
    ensures |urlSets| == 2 ==> base == Some(urlSets[0] * urlSets[1])
  {
    if |urlSets| == 0 {
      return None;
    }
    var n := |urlSets|;
    var b := urlSets[n - 1];
    var rest := urlSets[..n - 1];
    for i := 0 to |rest|
      invariant forall u :: u in b <==> u in urlSets[n - 1] && forall k :: 0 <= k < i ==> u in rest[k]
    {
      b := b * rest[i];
    }
    assert forall u :: u in b <==> forall k :: 0 <= k < n ==> u in urlSets[k] by {
      forall u ensures u in b <==> forall k :: 0 <= k < n ==> u in urlSets[k] {
        if forall k :: 0 <= k < n ==> u in urlSets[k] {
          assert forall k :: 0 <= k < |rest| ==> u in rest[k] by {
            forall k | 0 <= k < |rest| ensures u in rest[k] { assert rest[k] == urlSets[k]; }
          }
        }
      }
    }
    if n == 2 {
      assert b == urlSets[0] * urlSets[1];
    }
    return Some(b);
  }

  /**
   * `or(...urlSets)`: starts from the last argument and unites the others
   * into it in order; no argument at all gives `undefined`.
   */
  method Or(urlSets: seq<set<string>>) returns (base: Option<set<string>>)
    ensures base.None? <==> |urlSets| == 0
    ensures base.Some? ==> forall u :: u in base.value <==> exists k :: 0 <= k < |urlSets| && u in urlSets[k]
    ensures |urlSets| == 2 ==> base == Some(urlSets[0] + urlSets[1])
  {
    if |urlSets| == 0 {
      return None;
    }
    var n := |urlSets|;
    var b := urlSets[n - 1];
    var rest := urlSets[..n - 1];
    for i := 0 to |rest|
      invariant forall u :: u in b <==> u in urlSets[n - 1] || exists k :: 0 <= k < i && u in rest[k]
    {
      b := b + rest[i];
    }
    assert forall u :: u in b <==> exists k :: 0 <= k < n && u in urlSets[k] by {
      forall u ensures u in b <==> exists k :: 0 <= k < n && u in urlSets[k] {
        if u in b && u !in urlSets[n - 1] {
          var k :| 0 <= k < |rest| && u in rest[k];
          assert urlSets[k] == rest[k];
        }
      }
    }
    if n == 2 {
      assert b == urlSets[0] + urlSets[1];
    }
    return Some(b);
  }
}
