/**
 * The fuzzy ranking of the search page: `levenshteinCompare` and the
 * comparator handed to `filtered.sort`. Each URL scores the edit distance
 * from the lower-cased URL query to the lower-cased URL, minus 1000 when it
 * contains the query, plus three times the same score for its name against
 * the name query; smaller scores come first.
 */
module Ranking {
  import opened Wrappers
  import opened Text
  import opened Store
  import opened Levenshtein

  /** JavaScript's string conversion of a possibly missing argument: `"." + undefined` is ".undefined". */
  function JsString(v: Option<string>): (r: string)
    ensures v.Some? ==> r == v.value
    ensures v.None? ==> r == "undefined"
  {
    match v
    case Some(s) => s
    case None => "undefined"
  }

  /**
   * `levenshteinCompare(query, a, b)`. The comparator calls it with two
   * arguments, so `b` is `undefined` and the distance is taken to the
   * string "undefined".
   */
  method LevenshteinCompare(query: string, a: Option<string>, b: Option<string>) returns (c: int)
    ensures c == Distance(query, JsString(a)) - Distance(query, JsString(b))
    ensures a == b ==> c == 0
  {
    var aDistance := LevenshteinDistance(query, JsString(a));
    var bDistance := LevenshteinDistance(query, JsString(b));
    c := aDistance as int - bDistance as int;
  }

  /** `-1000` when `target.includes(query)`, else 0. */
  function Bonus(target: string, query: string): (r: int)
    ensures r == 0 || r == -1000
    ensures r == -1000 <==> Contains(target, query)
  {
    if Contains(target, query) then -1000 else 0
  }

  /** One field's score exactly as the comparator computes it. */
  function FieldScore(query: string, target: string): int
  {
    Distance(query, target) - Distance(query, "undefined") + Bonus(target, query)
  }

  /** `totalA` for URL `u`: URL score plus three times the name score. */
  function Total(urls: Urls, urlInput: string, nameInput: string, u: string): int
    requires u in urls
  {
    FieldScore(Lower(urlInput), Lower(u)) + 3 * FieldScore(Lower(nameInput), Lower(urls[u].name))
  }

  /**
   * The ranking key the comparator orders by: the same scores without the
   * distance to "undefined", which is the same for every URL.
   */
  function RankKey(urls: Urls, urlInput: string, nameInput: string, u: string): int
    requires u in urls
  {
    var q, n := Lower(urlInput), Lower(nameInput);
    Distance(q, Lower(u)) + Bonus(Lower(u), q)
    + 3 * (Distance(n, Lower(urls[u].name)) + Bonus(Lower(urls[u].name), n))
  }

  /** The comparator's `totalA` is the ranking key shifted by a constant of the two queries. */
  lemma TotalIsShiftedKey(urls: Urls, urlInput: string, nameInput: string, u: string)
    requires u in urls
    ensures Total(urls, urlInput, nameInput, u)
            == RankKey(urls, urlInput, nameInput, u)
               - Distance(Lower(urlInput), "undefined") - 3 * Distance(Lower(nameInput), "undefined")
  {
  }

  /**
   * The comparator of the search page, the difference of the two totals: negative
   * when `a` ranks before `b`.
   */
  method RankCompare(urls: Urls, urlInput: string, nameInput: string, a: string, b: string) returns (c: int)
    requires a in urls && b in urls
    ensures c == RankKey(urls, urlInput, nameInput, a) - RankKey(urls, urlInput, nameInput, b)
  {
    var lowerA, lowerB := Lower(a), Lower(b);
    var urlQuery, nameQuery := Lower(urlInput), Lower(nameInput);
    var urlBonusA, urlBonusB := Bonus(lowerA, urlQuery), Bonus(lowerB, urlQuery);
    var urlScoreA := LevenshteinCompare(urlQuery, Some(lowerA), None);
    var urlScoreB := LevenshteinCompare(urlQuery, Some(lowerB), None);
    urlScoreA, urlScoreB := urlScoreA + urlBonusA, urlScoreB + urlBonusB;
    var nameA, nameB := Lower(urls[a].name), Lower(urls[b].name);
    var nameBonusA, nameBonusB := Bonus(nameA, nameQuery), Bonus(nameB, nameQuery);
    var nameScoreA := LevenshteinCompare(nameQuery, Some(nameA), None);
    var nameScoreB := LevenshteinCompare(nameQuery, Some(nameB), None);
    nameScoreA, nameScoreB := nameScoreA + nameBonusA, nameScoreB + nameBonusB;
    var totalA := urlScoreA + nameScoreA * 3;
    var totalB := urlScoreB + nameScoreB * 3;
    TotalIsShiftedKey(urls, urlInput, nameInput, a);
    TotalIsShiftedKey(urls, urlInput, nameInput, b);
    c := totalA - totalB;
  }

  /** Ranking ignores ASCII case in both queries. */
  lemma RankKeyIgnoresQueryCase(urls: Urls, urlInput: string, nameInput: string, u: string)
    requires u in urls
    ensures RankKey(urls, Lower(urlInput), Lower(nameInput), u) == RankKey(urls, urlInput, nameInput, u)
  {
    LowerIdempotent(urlInput);
    LowerIdempotent(nameInput);
  }

  /** With both queries empty every URL gets both bonuses, and the key is the URL's length plus three times its name's. */
  lemma RankKeyEmptyQueries(urls: Urls, u: string)
    requires u in urls
    ensures RankKey(urls, "", "", u) == |u| + 3 * |urls[u].name| - 4000
  {
    assert Lower("") == "";
    ContainsEmptyAndSelf(Lower(u));
    ContainsEmptyAndSelf(Lower(urls[u].name));
    DistanceEmpty(Lower(u));
    DistanceEmpty(Lower(urls[u].name));
  }

  /** The ranking keys of a list of stored URLs, position by position. */
  ghost function Keys(s: seq<string>, urls: Urls, urlInput: string, nameInput: string): (r: seq<int>)
    requires forall k :: 0 <= k < |s| ==> s[k] in urls
    ensures |r| == |s|
    ensures forall k :: 0 <= k < |s| ==> r[k] == RankKey(urls, urlInput, nameInput, s[k])
  {
    seq(|s|, k requires 0 <= k < |s| => RankKey(urls, urlInput, nameInput, s[k]))
  }

  predicate SortedSlice(keys: seq<int>, lo: int, hi: int)
    requires 0 <= lo <= hi <= |keys|
  {
    forall p, q :: lo <= p < q < hi ==> keys[p] <= keys[q]
  }

  /** `a[lo..hi]` is in ascending order of ranking key. */
  ghost predicate RankedSlice(a: array<string>, lo: int, hi: int, urls: Urls, urlInput: string, nameInput: string)
    requires 0 <= lo <= hi <= a.Length
    requires forall k :: 0 <= k < a.Length ==> a[k] in urls
    reads a
  {
    SortedSlice(Keys(a[..], urls, urlInput, nameInput), lo, hi)
  }

  /**
   * `filtered.sort(comparator)`: the URLs are rearranged in place into
   * ascending order of ranking key. (The engine's own sorting algorithm is
   * not modelled; an insertion sort driven by the same comparator stands in
   * for it.)
   */
  method SortByRank(a: array<string>, urls: Urls, urlInput: string, nameInput: string)
    requires forall k :: 0 <= k < a.Length ==> a[k] in urls
    modifies a
    ensures multiset(a[..]) == multiset(old(a[..]))
    ensures forall k :: 0 <= k < a.Length ==> a[k] in urls
    ensures RankedSlice(a, 0, a.Length, urls, urlInput, nameInput)
  {
    if a.Length == 0 {
      return;
    }
    for i := 1 to a.Length
      invariant multiset(a[..]) == multiset(old(a[..]))
      invariant forall k :: 0 <= k < a.Length ==> a[k] in urls
      invariant RankedSlice(a, 0, i, urls, urlInput, nameInput)
    {
      InsertRanked(a, i, urls, urlInput, nameInput);
    }
  }

  /**
   * Insertion of `keys[j]` into the sorted `keys[..i + 1]` is under way: the
   * slice is sorted apart from position `j`, and the element there ranks no
   * later than anything after it.
   */
  predicate Inserting(keys: seq<int>, i: int, j: int)
    requires 0 <= j <= i < |keys|
  {
    && (forall p, q :: 0 <= p < q <= i && q != j ==> keys[p] <= keys[q])
    && (forall q :: j < q <= i ==> keys[j] <= keys[q])
    && (0 < j < i ==> keys[j - 1] <= keys[j + 1])
  }

  lemma InsertingStart(keys: seq<int>, i: int)
    requires 0 <= i < |keys| && SortedSlice(keys, 0, i)
    ensures Inserting(keys, i, i)
  {
  }

  lemma InsertingSwap(keys: seq<int>, i: int, j: int)
    requires 0 < j <= i < |keys| && Inserting(keys, i, j) && keys[j - 1] > keys[j]
    ensures Inserting(keys[j - 1 := keys[j]][j := keys[j - 1]], i, j - 1)
  {
  }

  lemma InsertingDone(keys: seq<int>, i: int, j: int)
    requires 0 <= j <= i < |keys| && Inserting(keys, i, j)
    requires j == 0 || keys[j - 1] <= keys[j]
    ensures SortedSlice(keys, 0, i + 1)
  {
  }

  lemma KeysSwap(s: seq<string>, j: int, urls: Urls, urlInput: string, nameInput: string)
    requires 0 < j < |s|
    requires forall k :: 0 <= k < |s| ==> s[k] in urls
    ensures var keys := Keys(s, urls, urlInput, nameInput);
            Keys(s[j - 1 := s[j]][j := s[j - 1]], urls, urlInput, nameInput) == keys[j - 1 := keys[j]][j := keys[j - 1]]
  {
  }

  method SwapAdjacent(a: array<string>, j: int)
    requires 0 < j < a.Length
    modifies a
    ensures a[..] == old(a[..])[j - 1 := old(a[j])][j := old(a[j - 1])]
    ensures multiset(a[..]) == multiset(old(a[..]))
  {
    a[j - 1], a[j] := a[j], a[j - 1];
  }

  /** One insertion step: `a[i]` is swapped down past every element that ranks after it. */
  method InsertRanked(a: array<string>, i: int, urls: Urls, urlInput: string, nameInput: string)
    requires 0 < i < a.Length
    requires forall k :: 0 <= k < a.Length ==> a[k] in urls
    requires RankedSlice(a, 0, i, urls, urlInput, nameInput)
    modifies a
    ensures multiset(a[..]) == multiset(old(a[..]))
    ensures forall k :: 0 <= k < a.Length ==> a[k] in urls
    ensures RankedSlice(a, 0, i + 1, urls, urlInput, nameInput)
  {
    var j := i;
    InsertingStart(Keys(a[..], urls, urlInput, nameInput), i);
    while j > 0
      invariant 0 <= j <= i
      invariant multiset(a[..]) == multiset(old(a[..]))
      invariant forall k :: 0 <= k < a.Length ==> a[k] in urls
      invariant Inserting(Keys(a[..], urls, urlInput, nameInput), i, j)
      decreases j
    {
      var c := RankCompare(urls, urlInput, nameInput, a[j - 1], a[j]);
      if c <= 0 {
        break;
      }
      StepDown(a, i, j, urls, urlInput, nameInput);
      j := j - 1;
    }
    InsertingDone(Keys(a[..], urls, urlInput, nameInput), i, j);
  }

  /** `a[j]` ranks before `a[j - 1]`: swapping the two moves the insertion one place down. */
  method StepDown(a: array<string>, i: int, j: int, urls: Urls, urlInput: string, nameInput: string)
    requires 0 < j <= i < a.Length
    requires forall k :: 0 <= k < a.Length ==> a[k] in urls
    requires var keys := Keys(a[..], urls, urlInput, nameInput);
             Inserting(keys, i, j) && keys[j - 1] > keys[j]
    modifies a
    ensures multiset(a[..]) == multiset(old(a[..]))
    ensures forall k :: 0 <= k < a.Length ==> a[k] in urls
    ensures Inserting(Keys(a[..], urls, urlInput, nameInput), i, j - 1)
  {
    ghost var before := a[..];
    KeysSwap(before, j, urls, urlInput, nameInput);
    InsertingSwap(Keys(before, urls, urlInput, nameInput), i, j);
    SwapAdjacent(a, j);
  }
}
