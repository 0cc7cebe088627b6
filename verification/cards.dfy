/** The card normalizer and filter (`processCards`): raw dish cards are
    gated on their declared type, flattened with `||` defaults, and dropped
    unless their rating trio is present. */
module Cards {
  import opened Base
  import opened Json
  import Seqs

  /** A flattened dish card. Only the price is read as a number; every other
      field keeps the JSON value it was read from (or its default). */
  datatype Card = Card(
    restaurantName: Json,
    imageId: Json,
    price: int,
    locality: Json,
    deliveryTime: Json,
    avgRatingRestaurant: Json,
    aggregatedRating: Json,
    ratingCount: Json,
    ratingCountV2: Json,
    lastMileTravel: Json)

  /** `card?.card?.card`. */
  function Body(card: Json): Value {
    Get(Get(Some(card), "card"), "card")
  }

  /** `card?.card?.card?.["@type"]?.includes("Dish")`. A string is searched
      for the substring, an array for the element; on any other defined value
      `includes` is not a function and the call throws. */
  function DeclaresDish(card: Json): Result<bool> {
    match Get(Body(card), "@type")
    case None => Ok(false)
    case Some(JNull) => Ok(false)
    case Some(JStr(s)) => Ok(Contains(s, "Dish"))
    case Some(JArr(items)) => Ok(JStr("Dish") in items)
    case Some(_) => Err("TypeError: includes is not a function")
  }

  /** The first filter's test; `&&` stops at the first falsy operand. */
  function Eligible(card: Json): Result<bool> {
    match DeclaresDish(card)
    case Err(e) => Err(e)
    case Ok(dish) =>
      Ok(dish && Truthy(Get(Body(card), "info")) && Truthy(Get(Get(Body(card), "restaurant"), "info")))
  }

  predicate IsEligible(card: Json) {
    Eligible(card) == Ok(true)
  }

  /** `cards.filter(Eligible)`: a test that throws aborts the whole filter. */
  function FilterEligible(cards: seq<Json>): (r: Result<seq<Json>>)
    ensures r.Err? <==> exists i :: 0 <= i < |cards| && Eligible(cards[i]).Err?
    ensures r.Ok? ==> r.value == Seqs.Filter(cards, IsEligible)
  {
    if |cards| == 0 then Ok([])
    else
      match Eligible(cards[0])
      case Err(e) => Err(e)
      case Ok(keep) =>
        match FilterEligible(cards[1..])
        case Err(e) =>
          assert exists i :: 0 <= i < |cards[1..]| && Eligible(cards[1..][i]).Err?;
          Err(e)
        case Ok(rest) =>
          assert forall i :: 1 <= i < |cards| ==> cards[i] == cards[1..][i - 1];
          Ok(if keep then [cards[0]] + rest else rest)
  }

  /** `info.price || 0`, read as a number of minor units. */
  function PriceOf(v: Value): int {
    if v.Some? && v.value.JNum? then v.value.n else 0
  }

  /** `info.ratings?.aggregatedRating`. */
  function RatingBlock(info: Json): Value {
    Get(Get(Some(info), "ratings"), "aggregatedRating")
  }

  /** The per-card mapping, with its `||` defaults. */
  function Normalize(card: Json): Card {
    var info := Or(Get(Body(card), "info"), JObj(map[]));
    var restaurant := Or(Get(Get(Body(card), "restaurant"), "info"), JObj(map[]));
    var sla := Get(Some(restaurant), "sla");
    Card(
      restaurantName := Or(Get(Some(restaurant), "name"), JStr("")),
      imageId := Or(Get(Some(info), "imageId"), JStr("")),
      price := PriceOf(Get(Some(info), "price")),
      locality := Or(Get(Some(restaurant), "locality"), JStr("")),
      deliveryTime := Or(Get(sla, "deliveryTime"), JStr("")),
      avgRatingRestaurant := Or(Get(Some(restaurant), "avgRating"), JStr("")),
      aggregatedRating := Or(Get(RatingBlock(info), "rating"), JNum(0)),
      ratingCount := Or(Get(RatingBlock(info), "ratingCount"), JNum(0)),
      ratingCountV2 := Or(Get(RatingBlock(info), "ratingCountV2"), JNum(0)),
      lastMileTravel := Or(Get(sla, "lastMileTravel"), JNum(0)))
  }

  /** The quality gate: none of the rating trio is strictly equal (`!==`) to 0. */
  predicate Rated(c: Card) {
    c.aggregatedRating != JNum(0) && c.ratingCount != JNum(0) && c.ratingCountV2 != JNum(0)
  }

  /** `processCards`. Anything but an array has no `filter` method and throws. */
  function ProcessCards(cardsArray: Json): (r: Result<seq<Card>>)
    ensures !cardsArray.JArr? ==> r.Err?
    ensures cardsArray.JArr? && r.Ok? ==> |r.value| <= |cardsArray.items|
    ensures r.Ok? ==> forall i :: 0 <= i < |r.value| ==> Rated(r.value[i])
  {
    match cardsArray
    case JArr(items) =>
      (match FilterEligible(items)
       case Err(e) => Err(e)
       case Ok(kept) => Ok(Seqs.Filter(Seqs.Map(kept, Normalize), Rated)))
    case _ => Err("TypeError: cardsArray.filter is not a function")
  }

  /** A raw card survives both filters. */
  predicate Selected(card: Json) {
    IsEligible(card) && Rated(Normalize(card))
  }

  /** Reference definition: the normalized surviving cards in input order. */
  function Expected(items: seq<Json>): seq<Card> {
    Seqs.Pick(items, Seqs.IndicesWhere(items, Selected), Normalize)
  }

  /** `processCards` over an array throws exactly when some card's type test
      throws; otherwise it yields the normalized form of exactly the cards
      that pass both filters, in input order. */
  lemma ProcessCardsSelects(items: seq<Json>)
    ensures ProcessCards(JArr(items)).Err? <==> exists i :: 0 <= i < |items| && Eligible(items[i]).Err?
    ensures ProcessCards(JArr(items)).Ok? ==> ProcessCards(JArr(items)).value == Expected(items)
  {
    Seqs.FilterMapFilter(items, IsEligible, Normalize, Rated, Selected);
  }

  /** The rating gate drops a card exactly when one of its raw rating values
      is falsy, since a truthy value is never the number 0. */
  lemma RatedIffRatingsPresent(card: Json)
    ensures var info := Or(Get(Body(card), "info"), JObj(map[]));
            var block := RatingBlock(info);
            Rated(Normalize(card)) <==>
              Truthy(Get(block, "rating")) && Truthy(Get(block, "ratingCount"))
              && Truthy(Get(block, "ratingCountV2"))
  {
  }

  /** Each surviving card's price is the source price when that is a truthy
      number, and 0 when it is missing or 0. */
  lemma SelectedPrice(card: Json, n: int)
    requires Selected(card)
    ensures Get(Get(Body(card), "info"), "price") == Some(JNum(n)) ==> Normalize(card).price == n
    ensures !Truthy(Get(Get(Body(card), "info"), "price")) ==> Normalize(card).price == 0
  {
  }
}
