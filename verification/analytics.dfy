/** `calculateAnalytics`: the cheapest and dearest card, the mean of the
    positive prices, and the two scatter series. */
module Analysis {
  import opened Base
  import opened Json
  import opened Cards
  import Rating
  import Seqs

  /** The `min` / `max` entry of the analytics object. */
  datatype Summary = Summary(name: Json, price: int, locality: Json, deliveryTime: Json, avgRating: Json)

  /** A `priceVSrating` point; a rating of `None` stands for NaN. */
  datatype RatingPoint = RatingPoint(price: int, rating: Option<int>)

  datatype DistancePoint = DistancePoint(price: int, distance: Json)

  datatype Analytics = Analytics(
    min: Summary,
    max: Summary,
    avgPrice: real,
    priceVSrating: seq<RatingPoint>,
    priceVSdistance: seq<DistancePoint>)

  function Summarize(c: Card): Summary {
    Summary(c.restaurantName, c.price, c.locality, c.deliveryTime, c.avgRatingRestaurant)
  }

  /** The `forEach` scan for the cheapest card from position `k` on, with
      `best` the running choice: a card replaces it only when strictly cheaper. */
  function MinFrom(cards: seq<Card>, best: nat, k: nat): (i: nat)
    requires best < |cards| && k <= |cards|
    ensures i < |cards|
    decreases |cards| - k
  {
    if k == |cards| then best
    else MinFrom(cards, if cards[k].price < cards[best].price then k else best, k + 1)
  }

  /** The same scan for the dearest card, replacing only when strictly dearer. */
  function MaxFrom(cards: seq<Card>, best: nat, k: nat): (i: nat)
    requires best < |cards| && k <= |cards|
    ensures i < |cards|
    decreases |cards| - k
  {
    if k == |cards| then best
    else MaxFrom(cards, if cards[k].price > cards[best].price then k else best, k + 1)
  }

  /** `minCard`, which starts at the first card. */
  function MinIndex(cards: seq<Card>): nat
    requires |cards| > 0
  {
    MinFrom(cards, 0, 0)
  }

  function MaxIndex(cards: seq<Card>): nat
    requires |cards| > 0
  {
    MaxFrom(cards, 0, 0)
  }

  lemma {:induction false} MinFromFirstMinimum(cards: seq<Card>, best: nat, k: nat)
    requires best < |cards| && k <= |cards| && (best < k || best == k == 0)
    requires forall j :: 0 <= j < k ==> cards[best].price <= cards[j].price
    requires forall j :: 0 <= j < best ==> cards[j].price > cards[best].price
    ensures forall j :: 0 <= j < |cards| ==> cards[MinFrom(cards, best, k)].price <= cards[j].price
    ensures forall j :: 0 <= j < MinFrom(cards, best, k) ==> cards[j].price > cards[MinFrom(cards, best, k)].price
    decreases |cards| - k
  {
    if k < |cards| {
      var next := if cards[k].price < cards[best].price then k else best;
      MinFromFirstMinimum(cards, next, k + 1);
    }
  }

  lemma {:induction false} MaxFromFirstMaximum(cards: seq<Card>, best: nat, k: nat)
    requires best < |cards| && k <= |cards| && (best < k || best == k == 0)
    requires forall j :: 0 <= j < k ==> cards[best].price >= cards[j].price
    requires forall j :: 0 <= j < best ==> cards[j].price < cards[best].price
    ensures forall j :: 0 <= j < |cards| ==> cards[MaxFrom(cards, best, k)].price >= cards[j].price
    ensures forall j :: 0 <= j < MaxFrom(cards, best, k) ==> cards[j].price < cards[MaxFrom(cards, best, k)].price
    decreases |cards| - k
  {
    if k < |cards| {
      var next := if cards[k].price > cards[best].price then k else best;
      MaxFromFirstMaximum(cards, next, k + 1);
    }
  }

  /** `min` is a cheapest card, and the first one: every earlier card is
      strictly dearer. */
  lemma MinIsFirstCheapest(cards: seq<Card>)
    requires |cards| > 0
    ensures MinIndex(cards) < |cards|
    ensures forall j :: 0 <= j < |cards| ==> cards[MinIndex(cards)].price <= cards[j].price
    ensures forall j :: 0 <= j < MinIndex(cards) ==> cards[j].price > cards[MinIndex(cards)].price
  {
    MinFromFirstMinimum(cards, 0, 0);
  }

  /** `max` is a dearest card, and the first one: every earlier card is
      strictly cheaper. */
  lemma MaxIsFirstDearest(cards: seq<Card>)
    requires |cards| > 0
    ensures MaxIndex(cards) < |cards|
    ensures forall j :: 0 <= j < |cards| ==> cards[MaxIndex(cards)].price >= cards[j].price
    ensures forall j :: 0 <= j < MaxIndex(cards) ==> cards[j].price < cards[MaxIndex(cards)].price
  {
    MaxFromFirstMaximum(cards, 0, 0);
  }

  function Price(c: Card): int { c.price }

  predicate IsPositive(p: int) { p > 0 }

  /** `prices`: the card prices that are positive numbers, in card order. */
  function PositivePrices(cards: seq<Card>): seq<int> {
    Seqs.Filter(Seqs.Map(cards, Price), IsPositive)
  }

  /** `reduce((a, b) => a + b, 0)`. */
  function Sum(xs: seq<int>): int {
    if |xs| == 0 then 0 else xs[0] + Sum(xs[1..])
  }

  /** `avgPrice`: the mean of the positive prices, 0 when there are none. */
  function AvgPrice(cards: seq<Card>): real {
    var prices := PositivePrices(cards);
    if |prices| > 0 then Sum(prices) as real / |prices| as real else 0.0
  }

  lemma {:induction false} SumBounds(xs: seq<int>, lo: int, hi: int)
    requires forall i :: 0 <= i < |xs| ==> lo <= xs[i] <= hi
    ensures |xs| * lo <= Sum(xs) <= |xs| * hi
  {
    if |xs| > 0 {
      SumBounds(xs[1..], lo, hi);
      assert |xs| * lo == lo + |xs[1..]| * lo;
      assert |xs| * hi == hi + |xs[1..]| * hi;
    }
  }

  lemma FilterDropsOnlyFailures(xs: seq<int>)
    ensures |Seqs.Filter(xs, IsPositive)| == 0 ==> forall i :: 0 <= i < |xs| ==> xs[i] <= 0
  {
    if |xs| > 0 {
      FilterDropsOnlyFailures(xs[1..]);
      if |Seqs.Filter(xs, IsPositive)| == 0 {
        assert forall i :: 1 <= i < |xs| ==> xs[i] == xs[1..][i - 1];
      }
    }
  }

  lemma MeanBetween(total: int, count: nat, lo: int, hi: int)
    requires count > 0
    requires count * lo <= total <= count * hi
    ensures lo as real <= total as real / count as real <= hi as real
  {
    var c := count as real;
    assert (count * lo) as real == c * lo as real;
    assert (count * hi) as real == c * hi as real;
    assert lo as real == (c * lo as real) / c;
    assert hi as real == (c * hi as real) / c;
  }

  /** With no negative price the mean lies between the cheapest and the
      dearest price; with none positive it is 0. */
  lemma {:induction false} AvgPriceBetween(cards: seq<Card>)
    requires |cards| > 0
    requires forall i :: 0 <= i < |cards| ==> cards[i].price >= 0
    ensures MinIndex(cards) < |cards| && MaxIndex(cards) < |cards|
    ensures cards[MinIndex(cards)].price as real <= AvgPrice(cards) <= cards[MaxIndex(cards)].price as real
  {
    MinIsFirstCheapest(cards);
    MaxIsFirstDearest(cards);
    var lo := cards[MinIndex(cards)].price;
    var hi := cards[MaxIndex(cards)].price;
    var all := Seqs.Map(cards, Price);
    var prices := PositivePrices(cards);
    if |prices| > 0 {
      forall i | 0 <= i < |prices|
        ensures lo <= prices[i] <= hi
      {
        assert prices[i] in all;
      }
      SumBounds(prices, lo, hi);
      MeanBetween(Sum(prices), |prices|, lo, hi);
    } else {
      FilterDropsOnlyFailures(all);
      assert all[MinIndex(cards)] == lo && all[MaxIndex(cards)] == hi;
    }
  }

  /** `parseFloat(card.aggregatedRating) || 0`: NaN and 0 both become 0. */
  function RatingOrZero(j: Json): Option<int> {
    match Rating.ParseTenths(ToJsString(j))
    case None => Some(0)
    case Some(0) => Some(0)
    case Some(v) => Some(v)
  }

  function ToRatingPoint(c: Card): RatingPoint {
    RatingPoint(c.price, RatingOrZero(c.aggregatedRating))
  }

  predicate IsNumber(p: RatingPoint) { p.rating.Some? }

  /** `priceVSrating`, including its `!isNaN` filter. */
  function PriceVsRating(cards: seq<Card>): seq<RatingPoint> {
    Seqs.Filter(Seqs.Map(cards, ToRatingPoint), IsNumber)
  }

  function ToDistancePoint(c: Card): DistancePoint {
    DistancePoint(c.price, c.lastMileTravel)
  }

  function PriceVsDistance(cards: seq<Card>): seq<DistancePoint> {
    Seqs.Map(cards, ToDistancePoint)
  }

  /** The `isNaN` filter never drops a point: both series have one entry per
      card, in card order, carrying that card's price; the rating is the
      card's rating key and the distance its `lastMileTravel`. */
  lemma SeriesFollowCards(cards: seq<Card>)
    ensures |PriceVsRating(cards)| == |cards| && |PriceVsDistance(cards)| == |cards|
    ensures forall i :: 0 <= i < |cards| ==>
              PriceVsRating(cards)[i] == RatingPoint(cards[i].price, Some(Rating.RatingKey(cards[i].aggregatedRating)))
    ensures forall i :: 0 <= i < |cards| ==>
              PriceVsDistance(cards)[i] == DistancePoint(cards[i].price, cards[i].lastMileTravel)
  {
    Seqs.FilterKeepsAll(Seqs.Map(cards, ToRatingPoint), IsNumber);
  }

  /** `calculateAnalytics`. With no cards `minCard` is undefined and reading
      its name throws. */
  function CalculateAnalytics(cards: seq<Card>): (r: Result<Analytics>)
    ensures r.Err? <==> |cards| == 0
    ensures r.Ok? ==> r.value.min.price <= r.value.max.price
  {
    if |cards| == 0 then Err("TypeError: Cannot read properties of undefined")
    else
      MinIsFirstCheapest(cards);
      MaxIsFirstDearest(cards);
      Ok(Analytics(
        Summarize(cards[MinIndex(cards)]),
        Summarize(cards[MaxIndex(cards)]),
        AvgPrice(cards),
        PriceVsRating(cards),
        PriceVsDistance(cards)))
  }

  /** The reported `min` and `max` are the summaries of the first cheapest
      and first dearest card. */
  lemma AnalyticsExtremes(cards: seq<Card>, i: nat)
    requires i < |cards|
    ensures CalculateAnalytics(cards).Ok?
    ensures CalculateAnalytics(cards).value.min.price <= cards[i].price <= CalculateAnalytics(cards).value.max.price
    ensures exists k :: 0 <= k < |cards| && CalculateAnalytics(cards).value.min == Summarize(cards[k])
                        && forall j :: 0 <= j < k ==> cards[j].price > cards[k].price
    ensures exists k :: 0 <= k < |cards| && CalculateAnalytics(cards).value.max == Summarize(cards[k])
                        && forall j :: 0 <= j < k ==> cards[j].price < cards[k].price
  {
    MinIsFirstCheapest(cards);
    MaxIsFirstDearest(cards);
  }
}
