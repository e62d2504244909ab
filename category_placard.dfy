/** The ranking of `src/components/CategoryPlacard.tsx`: a copy of the rows
    sorted by the category's score, then by votes, then by entry id under
    the locale's collation, cut to the first ten and numbered from 1. The
    collation (`localeCompare`) is a parameter. */
module CategoryPlacard {
  import opened Types
  import opened Text
  import opened Sorting
  import Fetch

  /** `metricKey`: each category is ranked by its same-named field. */
  function MetricKey(c: Category): (f: ScoreField)
    ensures f != VotesCount && f != TotalScore
  {
    match c
    case Label => LabelScore
    case Color => ColorScore
    case Drinkability => DrinkabilityScore
    case Flavor => FlavorScore
    case Overall => OverallScore
  }

  /** The placard ranks each category by the same field the loader sorts
      its winners bucket by, and distinct categories by distinct fields. */
  lemma MetricKeyAgrees(c: Category, d: Category)
    ensures MetricKey(c) == Fetch.CategoryField(c)
    ensures c != d ==> MetricKey(c) != MetricKey(d)
  {
  }

  /** What `localeCompare` is taken to be: a total preorder on strings,
      given by the sign of its result. */
  ghost predicate IsCollation(collate: (string, string) -> int) {
    && (forall a, b :: collate(a, b) < 0 <==> collate(b, a) > 0)
    && (forall a, b, c :: collate(a, b) <= 0 && collate(b, c) <= 0 ==> collate(a, c) <= 0)
  }

  /** The comparator: each `||` moves on when the difference before it is
      0. */
  function PlacardOrder(key: ScoreField, collate: (string, string) -> int): (Beer, Beer) -> real {
    (a: Beer, b: Beer) =>
      var d := Score(b.scores, key) - Score(a.scores, key);
      if d != 0.0 then d
      else
        var v := b.scores.votes - a.scores.votes;
        if v != 0.0 then v else collate(a.entryId, b.entryId) as real
  }

  /** "Goes no later than" under the comparator, as a ranking. */
  predicate RanksAbove(key: ScoreField, collate: (string, string) -> int, a: Beer, b: Beer) {
    || Score(a.scores, key) > Score(b.scores, key)
    || (Score(a.scores, key) == Score(b.scores, key) && a.scores.votes > b.scores.votes)
    || (Score(a.scores, key) == Score(b.scores, key) && a.scores.votes == b.scores.votes
        && collate(a.entryId, b.entryId) <= 0)
  }

  lemma OrderMeansRanks(key: ScoreField, collate: (string, string) -> int, a: Beer, b: Beer)
    ensures PlacardOrder(key, collate)(a, b) <= 0.0 <==> RanksAbove(key, collate, a, b)
  {
  }

  /** With a collation that is a total preorder, so is the comparator. */
  lemma PlacardOrderPreorder(key: ScoreField, collate: (string, string) -> int)
    requires IsCollation(collate)
    ensures IsTotalPreorder(PlacardOrder(key, collate))
  {
    var cmp := PlacardOrder(key, collate);
    forall a, b
      ensures cmp(a, b) < 0.0 <==> cmp(b, a) > 0.0
    {
      var x, y := collate(a.entryId, b.entryId), collate(b.entryId, a.entryId);
      assert x < 0 <==> y > 0;
      assert (x as real < 0.0 <==> x < 0) && (y as real > 0.0 <==> y > 0);
    }
    forall a, b, c | cmp(a, b) <= 0.0 && cmp(b, c) <= 0.0
      ensures cmp(a, c) <= 0.0
    {
      OrderMeansRanks(key, collate, a, b);
      OrderMeansRanks(key, collate, b, c);
      OrderMeansRanks(key, collate, a, c);
    }
  }

  /** A placard line: the rank badge's number and the beer. */
  datatype Ranked = Ranked(rank: nat, beer: Beer)

  /** `sorted.slice(0, 10)` with rank `i + 1`. */
  function Numbered(s: seq<Beer>, from: nat): (r: seq<Ranked>)
    ensures |r| == |s|
    ensures forall i :: 0 <= i < |s| ==> r[i] == Ranked(from + i + 1, s[i])
  {
    if s == [] then [] else [Ranked(from + 1, s[0])] + Numbered(s[1..], from + 1)
  }

  const MaxShown := 10

  function Placard(c: Category, rows: seq<Beer>, collate: (string, string) -> int): seq<Ranked> {
    var sorted := SortBy(rows, PlacardOrder(MetricKey(c), collate));
    Numbered(if |sorted| <= MaxShown then sorted else sorted[..MaxShown], 0)
  }

  /** At most ten lines, ranked 1, 2, … in order; together they are the
      first lines of an ordering of all the rows by score, then votes, then
      entry id; a ranked line is never worse than any later one. */
  lemma PlacardSpec(c: Category, rows: seq<Beer>, collate: (string, string) -> int)
    requires IsCollation(collate)
    ensures var p := Placard(c, rows, collate);
      var sorted := SortBy(rows, PlacardOrder(MetricKey(c), collate));
      && multiset(sorted) == multiset(rows)
      && |p| == (if |rows| <= MaxShown then |rows| else MaxShown)
      && (forall i :: 0 <= i < |p| ==> p[i].rank == i + 1 && p[i].beer == sorted[i])
      && (forall i, j :: 0 <= i < j < |sorted| ==> RanksAbove(MetricKey(c), collate, sorted[i], sorted[j]))
  {
    var cmp := PlacardOrder(MetricKey(c), collate);
    var sorted := SortBy(rows, cmp);
    SortByPerm(rows, cmp);
    PlacardOrderPreorder(MetricKey(c), collate);
    SortBySorted(rows, cmp);
    assert |sorted| == |rows| by {
      assert |multiset(sorted)| == |multiset(rows)|;
    }
    forall i, j | 0 <= i < j < |sorted|
      ensures RanksAbove(MetricKey(c), collate, sorted[i], sorted[j])
    {
      OrderMeansRanks(MetricKey(c), collate, sorted[i], sorted[j]);
    }
  }
}
