/** The menu catalogue of app1.py and `smart_menu_search`, its relevance search: every
    dish is scored against the query, dishes scoring more than 20 are kept, sorted by
    score (highest first, ties in catalogue order) and cut to `limit`. Also the
    category/taste filter of the Menu Explorer tab.

    `difflib.SequenceMatcher(None, a, b).ratio()` is the parameter `sim`, a similarity
    in [0, 1] that is 0 between the empty string and a non-empty one. */
module MenuSearch {
  import opened PyText

  /** A dish of the catalogue, with the fields the search and the filter read. */
  datatype MenuItem = MenuItem(id: nat, dishName: string, category: string, tasteCategory: string)

  /** `MENU_ITEMS`, in catalogue order. */
  const MenuItems: seq<MenuItem> := [
    MenuItem(1, "Chicken Mandi", "Main", "Savory"),
    MenuItem(2, "Kabuli Pulao", "Main", "Savory"),
    MenuItem(3, "Chicken Dum Biryani", "Main", "Savory"),
    MenuItem(4, "Kebab Platter", "Appetizer", "Savory"),
    MenuItem(5, "Chicken Kabsa", "Main", "Savory"),
    MenuItem(6, "Chicken 65 Biryani", "Main", "Spicy"),
    MenuItem(7, "Chicken Kofta Biryani", "Main", "Savory"),
    MenuItem(8, "Beef Dum Biryani", "Main", "Savory"),
    MenuItem(9, "Dubai Cheese Cake", "Dessert", "Sweet"),
    MenuItem(10, "Tiramisu", "Dessert", "Sweet"),
    MenuItem(11, "Mango Tiramisu", "Dessert", "Sweet"),
    MenuItem(12, "Butter Pound Cake", "Dessert", "Sweet"),
    MenuItem(13, "Malai Sheek Kebab (Beef/Chicken)", "Main", "Savory"),
    MenuItem(14, "Egg Potato Cutlet", "Appetizer", "Savory"),
    MenuItem(15, "Shahi Malai Jorda", "Dessert", "Sweet"),
    MenuItem(16, "Beef Tehari", "Main", "Savory"),
    MenuItem(17, "Chicken Roast", "Main", "Savory"),
    MenuItem(18, "Pina colada (Non Alcoholic)", "Drinks", "Sweet and Refreshing"),
    MenuItem(19, "Mango Lassi", "Drinks", "Sweet"),
    MenuItem(20, "Mint Lemon", "Drinks", "Sweet")
  ]

  /** The keywords worth 25 points each when both the query and the dish name contain them. */
  const Keywords: seq<string> :=
    ["chicken", "beef", "biryani", "kebab", "dessert", "drink", "cake", "spicy", "sweet", "savory"]

  /** Only dishes scoring strictly more than this are returned. */
  const Threshold: real := 20.0

  // ---------------------------------------------------------------- scoring

  /** `difflib.SequenceMatcher(None, a, b).ratio()`. */
  type Similarity = (string, string) -> real

  ghost predicate ValidSimilarity(sim: Similarity) {
    && (forall a, b :: 0.0 <= sim(a, b) <= 1.0)
    && (forall b :: b != [] ==> sim([], b) == 0.0)
  }

  /** The keyword is contained in both the (lowered) query and the (lowered) dish name. */
  predicate Shares(keyword: string, q: string, name: string) {
    IsSubstring(keyword, q) && IsSubstring(keyword, name)
  }

  /** How many of `keys` the query and the dish name share. */
  function SharedKeywords(q: string, name: string, keys: seq<string>): (n: nat)
    ensures n <= |keys|
  {
    if keys == [] then 0
    else SharedKeywords(q, name, keys[..|keys| - 1]) + (if Shares(keys[|keys| - 1], q, name) then 1 else 0)
  }

  /** The relevance of `item` for a query already in lower case: 90 when the query is in
      the dish name, 50 when it is in the category, 30 when it is in the taste category
      (all compared in lower case), 40 times the similarity of query and dish name, and 25
      per shared keyword. */
  function Relevance(q: string, item: MenuItem, sim: Similarity): real {
    var name := Lower(item.dishName);
    (if IsSubstring(q, name) then 90.0 else 0.0)
    + (if IsSubstring(q, Lower(item.category)) then 50.0 else 0.0)
    + (if IsSubstring(q, Lower(item.tasteCategory)) then 30.0 else 0.0)
    + sim(q, name) * 40.0
    + 25.0 * (SharedKeywords(q, name, Keywords) as real)
  }

  /** The score of `item` for `query`, which is compared in lower case. */
  function Score(query: string, item: MenuItem, sim: Similarity): real {
    Relevance(Lower(query), item, sim)
  }

  /** The score of every dish of the catalogue, in catalogue order. */
  function Scores(catalog: seq<MenuItem>, query: string, sim: Similarity): (scores: seq<real>)
    ensures |scores| == |catalog|
  {
    seq(|catalog|, i requires 0 <= i < |catalog| => Score(query, catalog[i], sim))
  }

  /** An entry of `scored_items`: the dish, given by its position in the catalogue, and its score. */
  datatype Scored = Scored(index: nat, score: real)

  /** The entries appended while scoring the first `n` dishes, in catalogue order: those
      whose score passes the threshold. */
  function Candidates(scores: seq<real>, n: nat): (r: seq<Scored>)
    requires n <= |scores|
    ensures |r| <= n
    ensures forall k :: 0 <= k < |r| ==>
      r[k].index < n && r[k].score == scores[r[k].index] && r[k].score > Threshold
    ensures forall i, j :: 0 <= i < j < |r| ==> r[i].index < r[j].index
    ensures forall i :: 0 <= i < n && scores[i] > Threshold ==> Scored(i, scores[i]) in r
  {
    if n == 0 then []
    else Candidates(scores, n - 1) + (if scores[n - 1] > Threshold then [Scored(n - 1, scores[n - 1])] else [])
  }

  // ---------------------------------------------------------------- ordering

  /** `a` comes before `b`: a higher score, or the same score and an earlier dish. */
  predicate Before(a: Scored, b: Scored) {
    a.score > b.score || (a.score == b.score && a.index < b.index)
  }

  /** Sorted by descending score, ties in catalogue order. */
  predicate Ranked(s: seq<Scored>) {
    forall i, j :: 0 <= i < j < |s| ==> Before(s[i], s[j])
  }

  predicate NonIncreasing(s: seq<Scored>) {
    forall i, j :: 0 <= i < j < |s| ==> s[i].score >= s[j].score
  }

  predicate IncreasingIndex(s: seq<Scored>) {
    forall i, j :: 0 <= i < j < |s| ==> s[i].index < s[j].index
  }

  /** Puts `x` in front of the first entry that does not score more than it: the step of a
      stable sort by descending score that handles `x` before the entries of `s`. */
  function Insert(x: Scored, s: seq<Scored>): (r: seq<Scored>)
    ensures |r| == |s| + 1
    ensures multiset(r) == multiset(s) + multiset{x}
  {
    if s == [] || s[0].score <= x.score then [x] + s
    else
      assert s == [s[0]] + s[1..];
      [s[0]] + Insert(x, s[1..])
  }

  /** `list.sort(key=score, reverse=True)`: Python's sort is stable, and stays stable when
      reversed, so entries with equal scores keep their order. */
  function SortByScore(xs: seq<Scored>): (r: seq<Scored>)
    ensures |r| == |xs|
    ensures multiset(r) == multiset(xs)
  {
    if xs == [] then []
    else
      assert xs == [xs[0]] + xs[1..];
      Insert(xs[0], SortByScore(xs[1..]))
  }

  /** An entry that comes before every entry of a ranked list can head it. */
  lemma RankedCons(a: Scored, t: seq<Scored>)
    requires Ranked(t)
    requires forall k :: 0 <= k < |t| ==> Before(a, t[k])
    ensures Ranked([a] + t)
  {
    var r := [a] + t;
    forall i, j | 0 <= i < j < |r| ensures Before(r[i], r[j]) {
      assert r[j] == t[j - 1];
      if i > 0 {
        assert r[i] == t[i - 1];
      }
    }
  }

  /** Inserting an entry that precedes every entry of a ranked list in catalogue order keeps
      the list ranked. */
  lemma {:induction false} InsertRanked(x: Scored, s: seq<Scored>)
    requires Ranked(s)
    requires forall k :: 0 <= k < |s| ==> x.index < s[k].index
    ensures Ranked(Insert(x, s))
  {
    if s == [] || s[0].score <= x.score {
      forall k | 0 <= k < |s| ensures Before(x, s[k]) {
        if k > 0 {
          assert Before(s[0], s[k]);
        }
      }
      RankedCons(x, s);
    } else {
      assert s == [s[0]] + s[1..];
      assert Ranked(s[1..]);
      InsertRanked(x, s[1..]);
      var rest := Insert(x, s[1..]);
      forall k | 0 <= k < |rest| ensures Before(s[0], rest[k]) {
        assert rest[k] in multiset(rest);
        if rest[k] != x {
          assert rest[k] in multiset(s[1..]);
          var p :| 0 <= p < |s[1..]| && s[1..][p] == rest[k];
          assert s[1..][p] == s[p + 1];
        }
      }
      RankedCons(s[0], rest);
    }
  }

  /** Sorting entries listed in catalogue order ranks them: descending scores, and ties in
      catalogue order (the sort is stable). */
  lemma {:induction false} SortRanks(xs: seq<Scored>)
    requires IncreasingIndex(xs)
    ensures Ranked(SortByScore(xs))
  {
    if xs != [] {
      assert IncreasingIndex(xs[1..]);
      SortRanks(xs[1..]);
      var rest := SortByScore(xs[1..]);
      forall k | 0 <= k < |rest| ensures xs[0].index < rest[k].index {
        assert rest[k] in multiset(rest);
        assert rest[k] in multiset(xs[1..]);
        var p :| 0 <= p < |xs[1..]| && xs[1..][p] == rest[k];
        assert xs[1..][p] == xs[p + 1];
      }
      InsertRanked(xs[0], rest);
    }
  }

  /** A list already in descending score order is left as it is. */
  lemma {:induction false} SortKeepsSorted(xs: seq<Scored>)
    requires NonIncreasing(xs)
    ensures SortByScore(xs) == xs
  {
    if xs != [] {
      assert NonIncreasing(xs[1..]);
      SortKeepsSorted(xs[1..]);
      assert xs == [xs[0]] + xs[1..];
    }
  }

  // ---------------------------------------------------------------- the search

  function Min(a: int, b: int): int { if a <= b then a else b }
  function Max(a: int, b: int): int { if a >= b then a else b }

  /** `xs[:limit]`: the first `limit` elements, or, for a negative `limit`, all but the
      last `-limit`. */
  function PrefixSlice<T>(xs: seq<T>, limit: int): (r: seq<T>)
    ensures |r| <= |xs| && r == xs[..|r|]
    ensures limit >= 0 ==> |r| == Min(limit, |xs|)
    ensures limit < 0 ==> |r| == Max(0, |xs| + limit)
  {
    if limit >= 0 then xs[..Min(limit, |xs|)] else xs[..Max(0, |xs| + limit)]
  }

  /** The entries kept for a list of scores: the candidates sorted, then cut to `limit`. */
  function Top(scores: seq<real>, limit: int): seq<Scored> {
    PrefixSlice(SortByScore(Candidates(scores, |scores|)), limit)
  }

  /** The entries kept are ranked, and each is a dish with its score above the threshold. */
  lemma TopEntries(scores: seq<real>, limit: int)
    ensures var r := Top(scores, limit);
      && Ranked(r)
      && |r| <= |scores|
      && (limit >= 0 ==> |r| <= limit)
      && forall k :: 0 <= k < |r| ==>
           r[k].index < |scores| && r[k].score == scores[r[k].index] && r[k].score > Threshold
  {
    var c := Candidates(scores, |scores|);
    var s := SortByScore(c);
    var r := Top(scores, limit);
    SortRanks(c);
    forall k | 0 <= k < |r|
      ensures r[k].index < |scores| && r[k].score == scores[r[k].index] && r[k].score > Threshold
    {
      assert r[k] == s[k];
      assert s[k] in multiset(s);
      assert s[k] in multiset(c);
      var p :| 0 <= p < |c| && c[p] == s[k];
    }
    assert Ranked(r) by {
      forall i, j | 0 <= i < j < |r| ensures Before(r[i], r[j]) {
        assert r[i] == s[i] && r[j] == s[j];
      }
    }
  }

  /** Where an entry ends up after sorting. */
  lemma SortedPosition(xs: seq<Scored>, x: Scored) returns (p: nat)
    requires x in xs
    ensures p < |SortByScore(xs)| && SortByScore(xs)[p] == x
  {
    assert x in multiset(xs);
    assert x in multiset(SortByScore(xs));
    p :| 0 <= p < |SortByScore(xs)| && SortByScore(xs)[p] == x;
  }

  /** An entry of a ranked list that its first `cut` entries leave out comes after all of them. */
  lemma RankedPrefixPrecedes(s: seq<Scored>, cut: nat, x: Scored)
    requires Ranked(s) && cut <= |s| && x in s && x !in s[..cut]
    ensures cut < |s|
    ensures forall k :: 0 <= k < cut ==> Before(s[k], x)
  {
    var p :| 0 <= p < |s| && s[p] == x;
    assert cut <= p;
  }

  /** A dish above the threshold that is not kept comes after every entry kept, and then
      the cut was reached. */
  lemma TopIsBest(scores: seq<real>, limit: int, i: nat)
    requires i < |scores| && scores[i] > Threshold
    requires forall k :: 0 <= k < |Top(scores, limit)| ==> Top(scores, limit)[k].index != i
    ensures var r := Top(scores, limit);
      && (limit >= 0 ==> |r| == limit)
      && (forall k :: 0 <= k < |r| ==> Before(r[k], Scored(i, scores[i])))
  {
    var c := Candidates(scores, |scores|);
    var s := SortByScore(c);
    var r := Top(scores, limit);
    var x := Scored(i, scores[i]);
    SortRanks(c);
    var p := SortedPosition(c, x);
    assert r == s[..|r|];
    assert x !in r;
    RankedPrefixPrecedes(s, |r|, x);
  }

  /** With a limit of at least the number of dishes, a dish is kept exactly when its score
      passes the threshold. */
  lemma TopIsComplete(scores: seq<real>, limit: int, i: nat)
    requires limit >= |scores| && i < |scores|
    ensures var r := Top(scores, limit);
      scores[i] > Threshold <==> exists k :: 0 <= k < |r| && r[k].index == i
  {
    var c := Candidates(scores, |scores|);
    var s := SortByScore(c);
    var r := Top(scores, limit);
    TopEntries(scores, limit);
    assert r == s;
    if scores[i] > Threshold {
      var p := SortedPosition(c, Scored(i, scores[i]));
      assert r[p].index == i;
    }
  }

  /** The entries `smart_menu_search(query, limit)` keeps. */
  function Ranking(catalog: seq<MenuItem>, query: string, limit: int, sim: Similarity): seq<Scored> {
    Top(Scores(catalog, query, sim), limit)
  }

  /** The entries of the ranking are dishes of the catalogue, with their scores. */
  lemma RankingEntries(catalog: seq<MenuItem>, query: string, limit: int, sim: Similarity)
    ensures var r := Ranking(catalog, query, limit, sim);
      forall k :: 0 <= k < |r| ==> r[k].index < |catalog|
  {
    TopEntries(Scores(catalog, query, sim), limit);
  }

  /** The dishes of a list of entries. */
  function ItemsOf(catalog: seq<MenuItem>, r: seq<Scored>): (items: seq<MenuItem>)
    requires forall k :: 0 <= k < |r| ==> r[k].index < |catalog|
    ensures |items| == |r|
    ensures forall k :: 0 <= k < |r| ==> items[k] == catalog[r[k].index]
  {
    seq(|r|, k requires 0 <= k < |r| => catalog[r[k].index])
  }

  /** What `smart_menu_search(query, limit)` returns when the catalogue is `catalog`. */
  function Search(catalog: seq<MenuItem>, query: string, limit: int, sim: Similarity): seq<MenuItem> {
    RankingEntries(catalog, query, limit, sim);
    ItemsOf(catalog, Ranking(catalog, query, limit, sim))
  }

  /** The body of the scoring loop for one dish: the bonuses added to `score` one by one,
      the keyword bonus by the inner loop over the keywords. */
  method ScoreItem(queryLower: string, item: MenuItem, sim: Similarity) returns (score: real)
    ensures score == Relevance(queryLower, item, sim)
  {
    var nameLower := Lower(item.dishName);
    score := 0.0;
    if IsSubstring(queryLower, nameLower) {
      score := score + 90.0;
    }
    if IsSubstring(queryLower, Lower(item.category)) {
      score := score + 50.0;
    }
    if IsSubstring(queryLower, Lower(item.tasteCategory)) {
      score := score + 30.0;
    }
    var similarity := sim(queryLower, nameLower);
    score := score + similarity * 40.0;
    ghost var base := score;
    for k := 0 to |Keywords|
      invariant score == base + 25.0 * (SharedKeywords(queryLower, nameLower, Keywords[..k]) as real)
    {
      var keyword := Keywords[k];
      assert Keywords[..k + 1][..k] == Keywords[..k];
      if IsSubstring(keyword, queryLower) && IsSubstring(keyword, nameLower) {
        score := score + 25.0;
      }
    }
    assert Keywords[..|Keywords|] == Keywords;
  }

  /** `smart_menu_search`: the scoring loop over the catalogue, which keeps the dishes
      scoring above the threshold, then the sort and the cut. */
  method SmartMenuSearch(catalog: seq<MenuItem>, query: string, limit: int, sim: Similarity)
    returns (result: seq<MenuItem>)
    ensures result == Search(catalog, query, limit, sim)
  {
    ghost var scores := Scores(catalog, query, sim);
    assert forall i :: 0 <= i < |catalog| ==> scores[i] == Score(query, catalog[i], sim);
    var queryLower := Lower(query);
    var scoredItems: seq<Scored> := [];
    for i := 0 to |catalog|
      invariant scoredItems == Candidates(scores, i)
    {
      var score := ScoreItem(queryLower, catalog[i], sim);
      assert score == scores[i];
      if score > Threshold {
        scoredItems := scoredItems + [Scored(i, score)];
      }
    }
    scoredItems := SortByScore(scoredItems);
    var top := PrefixSlice(scoredItems, limit);
    assert top == Ranking(catalog, query, limit, sim);
    RankingEntries(catalog, query, limit, sim);
    result := ItemsOf(catalog, top);
  }

  // ---------------------------------------------------------------- properties

  /** At most `limit` dishes (for a non-negative `limit`), each a dish of the catalogue
      scoring above 20, in descending score order with ties in catalogue order, hence
      no dish twice. */
  lemma SearchRanked(catalog: seq<MenuItem>, query: string, limit: int, sim: Similarity)
    ensures var r := Ranking(catalog, query, limit, sim);
      && |r| <= |catalog|
      && (limit >= 0 ==> |r| <= limit)
      && Ranked(r)
      && (forall k :: 0 <= k < |r| ==>
            r[k].index < |catalog| && r[k].score == Score(query, catalog[r[k].index], sim) && r[k].score > Threshold)
      && (forall i, j :: 0 <= i < j < |r| ==> r[i].index != r[j].index)
      && Search(catalog, query, limit, sim) == ItemsOf(catalog, r)
  {
    TopEntries(Scores(catalog, query, sim), limit);
  }

  /** The search returns the best dishes: a dish scoring above 20 that is left out comes
      after every dish returned, and then `limit` dishes were returned. */
  lemma SearchReturnsTop(catalog: seq<MenuItem>, query: string, limit: int, sim: Similarity, i: nat)
    requires i < |catalog| && Score(query, catalog[i], sim) > Threshold
    requires forall k :: 0 <= k < |Ranking(catalog, query, limit, sim)| ==>
               Ranking(catalog, query, limit, sim)[k].index != i
    ensures var r := Ranking(catalog, query, limit, sim);
      && (limit >= 0 ==> |r| == limit)
      && (forall k :: 0 <= k < |r| ==> Before(r[k], Scored(i, Score(query, catalog[i], sim))))
  {
    assert Ranking(catalog, query, limit, sim) == Top(Scores(catalog, query, sim), limit);
    TopIsBest(Scores(catalog, query, sim), limit, i);
  }

  /** With a limit of at least the catalogue's size, as the Menu Explorer passes, the search
      returns exactly the dishes of the catalogue that score above 20. */
  lemma UnlimitedSearchMembers(catalog: seq<MenuItem>, query: string, limit: int, sim: Similarity, x: MenuItem)
    requires limit >= |catalog|
    ensures x in Search(catalog, query, limit, sim) <==> x in catalog && Score(query, x, sim) > Threshold
  {
    var scores := Scores(catalog, query, sim);
    var r := Ranking(catalog, query, limit, sim);
    TopEntries(scores, limit);
    var items := Search(catalog, query, limit, sim);
    if x in items {
      var k :| 0 <= k < |items| && items[k] == x;
      assert catalog[r[k].index] == x;
    }
    if x in catalog && Score(query, x, sim) > Threshold {
      var i :| 0 <= i < |catalog| && catalog[i] == x;
      TopIsComplete(scores, limit, i);
      var k :| 0 <= k < |r| && r[k].index == i;
      assert items[k] == x;
    }
  }

  /** Every score lies between 0 and 460 = 90 + 50 + 30 + 40 + 25 * 10. */
  lemma ScoreBounds(query: string, item: MenuItem, sim: Similarity)
    requires ValidSimilarity(sim)
    ensures 0.0 <= Score(query, item, sim) <= 460.0
  {
    var q := Lower(query);
    var name := Lower(item.dishName);
    assert 0.0 <= sim(q, name) <= 1.0;
    assert SharedKeywords(q, name, Keywords) <= 10;
  }

  /** A query contained (ignoring case) in a dish name gives that dish at least 90 points,
      so it passes the threshold. */
  lemma NameMatchScores(query: string, item: MenuItem, sim: Similarity)
    requires ValidSimilarity(sim)
    requires IsSubstring(Lower(query), Lower(item.dishName))
    ensures Score(query, item, sim) >= 90.0 > Threshold
  {
    assert 0.0 <= sim(Lower(query), Lower(item.dishName));
  }

  /** With distinct keys, the keyword bonus counts the set of keys shared by query and name. */
  lemma {:induction false} SharedKeywordsCountsSet(q: string, name: string, keys: seq<string>)
    requires forall i, j :: 0 <= i < j < |keys| ==> keys[i] != keys[j]
    ensures SharedKeywords(q, name, keys) == |set k | k in keys && Shares(k, q, name)|
  {
    if keys != [] {
      var init := keys[..|keys| - 1];
      var last := keys[|keys| - 1];
      SharedKeywordsCountsSet(q, name, init);
      var before := set k | k in init && Shares(k, q, name);
      var after := set k | k in keys && Shares(k, q, name);
      assert keys == init + [last];
      assert last !in init;
      if Shares(last, q, name) {
        assert after == before + {last};
      } else {
        assert after == before;
      }
    }
  }

  lemma KeywordsDistinct()
    ensures forall i, j :: 0 <= i < j < |Keywords| ==> Keywords[i] != Keywords[j]
  {
  }

  /** The keyword term of the score is 25 for each of the ten keywords contained in both
      the lowered query and the lowered dish name. */
  lemma KeywordBonusCountsShared(q: string, name: string)
    ensures SharedKeywords(q, name, Keywords) == |set k | k in Keywords && Shares(k, q, name)|
  {
    KeywordsDistinct();
    SharedKeywordsCountsSet(q, name, Keywords);
  }

  /** The empty query is contained in every name, category and taste, shares no keyword
      and has similarity 0 with a non-empty name: every such dish scores 170. */
  lemma EmptyQueryScore(item: MenuItem, sim: Similarity)
    requires ValidSimilarity(sim) && item.dishName != []
    ensures Score("", item, sim) == 170.0
  {
    assert Lower("") == "";
    assert Lower(item.dishName) != [];
    NoKeywordInEmpty(Lower(item.dishName), Keywords);
  }

  lemma {:induction false} NoKeywordInEmpty(name: string, keys: seq<string>)
    requires forall k :: 0 <= k < |keys| ==> keys[k] != []
    ensures SharedKeywords("", name, keys) == 0
  {
    if keys != [] {
      NoKeywordInEmpty(name, keys[..|keys| - 1]);
      assert !IsSubstring(keys[|keys| - 1], "");
    }
  }

  /** Every dish of the first `n`, in order, with the same score. */
  ghost function Uniform(n: nat, score: real): (r: seq<Scored>)
    ensures |r| == n && forall k :: 0 <= k < n ==> r[k] == Scored(k, score)
  {
    if n == 0 then [] else Uniform(n - 1, score) + [Scored(n - 1, score)]
  }

  /** Equal scores everywhere above the threshold: every dish is a candidate, in order. */
  lemma {:induction false} EqualScoresCandidates(scores: seq<real>, n: nat)
    requires n <= |scores|
    requires forall i :: 0 <= i < |scores| ==> scores[i] == 170.0
    ensures Candidates(scores, n) == Uniform(n, 170.0)
  {
    if n > 0 {
      EqualScoresCandidates(scores, n - 1);
      assert scores[n - 1] == 170.0;
    }
  }

  /** For the empty query every named dish is kept, with score 170, in catalogue order. */
  lemma EmptyQueryRanking(catalog: seq<MenuItem>, limit: nat, sim: Similarity)
    requires ValidSimilarity(sim)
    requires forall i :: 0 <= i < |catalog| ==> catalog[i].dishName != []
    ensures var r := Ranking(catalog, "", limit, sim);
      |r| == Min(limit, |catalog|) && forall k :: 0 <= k < |r| ==> r[k] == Scored(k, 170.0)
  {
    var scores := Scores(catalog, "", sim);
    forall i | 0 <= i < |catalog| ensures scores[i] == 170.0 {
      EmptyQueryScore(catalog[i], sim);
    }
    var c := Candidates(scores, |catalog|);
    EqualScoresCandidates(scores, |catalog|);
    SortKeepsSorted(c);
  }

  /** The empty query returns the first `limit` dishes of the catalogue, in catalogue order
      (not an empty result). */
  lemma EmptyQueryReturnsPrefix(catalog: seq<MenuItem>, limit: nat, sim: Similarity)
    requires ValidSimilarity(sim)
    requires forall i :: 0 <= i < |catalog| ==> catalog[i].dishName != []
    ensures Search(catalog, "", limit, sim) == catalog[..Min(limit, |catalog|)]
  {
    EmptyQueryRanking(catalog, limit, sim);
    var r := Ranking(catalog, "", limit, sim);
    RankingEntries(catalog, "", limit, sim);
    var items := ItemsOf(catalog, r);
    assert forall k :: 0 <= k < |items| ==> items[k] == catalog[k];
  }

  lemma MenuNamesNonEmpty()
    ensures |MenuItems| == 20
    ensures forall i :: 0 <= i < |MenuItems| ==> MenuItems[i].dishName != []
  {
  }

  /** An empty search with the default limit of 3 shows the first three dishes of the menu. */
  lemma EmptyQueryOnMenu(sim: Similarity)
    requires ValidSimilarity(sim)
    ensures Search(MenuItems, "", 3, sim) == [MenuItems[0], MenuItems[1], MenuItems[2]]
  {
    MenuNamesNonEmpty();
    EmptyQueryReturnsPrefix(MenuItems, 3, sim);
    assert MenuItems[..3] == [MenuItems[0], MenuItems[1], MenuItems[2]];
  }

  // ---------------------------------------------------------------- Menu Explorer filter

  /** The two drop-down filters: by category and by taste. "All" keeps everything. */
  datatype Facet = Category | Taste

  function FacetOf(item: MenuItem, facet: Facet): string {
    match facet
    case Category => item.category
    case Taste => item.tasteCategory
  }

  /** `[item for item in items if item.<facet> == value]`: the dishes with that value,
      in their order. */
  function KeepFacet(items: seq<MenuItem>, facet: Facet, value: string): (r: seq<MenuItem>)
    ensures |r| <= |items|
  {
    if items == [] then []
    else
      var rest := KeepFacet(items[1..], facet, value);
      if FacetOf(items[0], facet) == value then [items[0]] + rest else rest
  }

  /** The filter keeps exactly the dishes with the chosen value. */
  lemma {:induction false} KeepFacetMembers(items: seq<MenuItem>, facet: Facet, value: string)
    ensures forall x :: x in KeepFacet(items, facet, value) <==> x in items && FacetOf(x, facet) == value
    decreases |items|
  {
    if items != [] {
      KeepFacetMembers(items[1..], facet, value);
      assert items == [items[0]] + items[1..];
    }
  }

  /** A list whose dishes all have the chosen value passes the filter unchanged. */
  lemma {:induction false} KeepFacetAllMatch(items: seq<MenuItem>, facet: Facet, value: string)
    requires forall k :: 0 <= k < |items| ==> FacetOf(items[k], facet) == value
    ensures KeepFacet(items, facet, value) == items
    decreases |items|
  {
    if items != [] {
      KeepFacetAllMatch(items[1..], facet, value);
      assert items == [items[0]] + items[1..];
    }
  }

  /** Filtering keeps the order of the list: the filter of a concatenation is the
      concatenation of the filters. */
  lemma {:induction false} KeepFacetAppend(a: seq<MenuItem>, b: seq<MenuItem>, facet: Facet, value: string)
    ensures KeepFacet(a + b, facet, value) == KeepFacet(a, facet, value) + KeepFacet(b, facet, value)
    decreases |a|
  {
    if a == [] {
      assert a + b == b;
    } else {
      assert (a + b)[0] == a[0];
      assert (a + b)[1..] == a[1..] + b;
      KeepFacetAppend(a[1..], b, facet, value);
    }
  }

  /** A single dish is kept exactly when it has the chosen value. */
  lemma KeepFacetSingle(x: MenuItem, facet: Facet, value: string)
    ensures KeepFacet([x], facet, value) == if FacetOf(x, facet) == value then [x] else []
  {
  }

  /** A drop-down filter: "All" keeps the list, any other choice keeps the dishes with
      that value. */
  function Filter(items: seq<MenuItem>, facet: Facet, choice: string): seq<MenuItem> {
    if choice == "All" then items else KeepFacet(items, facet, choice)
  }

  /** The dishes the Menu Explorer shows: the search results for a non-empty query (with
      the whole catalogue as limit) in their ranked order, otherwise the whole catalogue,
      then the category filter and the taste filter. */
  method ExploreMenu(catalog: seq<MenuItem>, searchQuery: string, categoryFilter: string,
                     tasteFilter: string, sim: Similarity)
    returns (shown: seq<MenuItem>)
    ensures var listed := if searchQuery == [] then catalog else Search(catalog, searchQuery, |catalog|, sim);
      shown == Filter(Filter(listed, Category, categoryFilter), Taste, tasteFilter)
    ensures forall x :: x in shown <==>
      && x in (if searchQuery == [] then catalog else Search(catalog, searchQuery, |catalog|, sim))
      && (categoryFilter == "All" || x.category == categoryFilter)
      && (tasteFilter == "All" || x.tasteCategory == tasteFilter)
  {
    shown := catalog;
    if searchQuery != [] {
      shown := SmartMenuSearch(catalog, searchQuery, |catalog|, sim);
    }
    if categoryFilter != "All" {
      KeepFacetMembers(shown, Category, categoryFilter);
      shown := KeepFacet(shown, Category, categoryFilter);
    }
    if tasteFilter != "All" {
      KeepFacetMembers(shown, Taste, tasteFilter);
      shown := KeepFacet(shown, Taste, tasteFilter);
    }
  }
}
