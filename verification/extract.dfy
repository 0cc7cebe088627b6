/** The payload extractor: locates the dish cards in the search API's
    response, trying the fixed position first and then scanning. */
module Extract {
  import opened Base
  import opened Json

  /** `v?.groupedCard?.cardGroupMap?.DISH?.cards`. */
  function DishCards(v: Value): Value {
    Get(Get(Get(Get(v, "groupedCard"), "cardGroupMap"), "DISH"), "cards")
  }

  /** `apiResponse?.data?.cards`. */
  function CardGroups(response: Json): Value {
    Get(Get(Some(response), "data"), "cards")
  }

  /** The index of the first element exposing dish cards, or `|items|`. */
  function FirstExposing(items: seq<Json>): (i: nat)
    ensures i <= |items|
    ensures i < |items| ==> Truthy(DishCards(Some(items[i])))
    ensures forall j :: 0 <= j < i ==> !Truthy(DishCards(Some(items[j])))
  {
    if |items| == 0 then 0
    else if Truthy(DishCards(Some(items[0]))) then 0
    else 1 + FirstExposing(items[1..])
  }

  /** `extractCardsArray`. The scan is a `for...of` loop: over an array it
      visits the elements; over a string it visits one-character strings,
      none of which exposes dish cards; any other truthy value is not
      iterable and the loop throws a TypeError. */
  function ExtractCards(response: Json): (r: Result<Json>)
    // the fixed position wins whenever it exposes dish cards
    ensures var fixed := DishCards(At(CardGroups(response), 1));
            Truthy(fixed) ==> r == Ok(fixed.value)
    // throws exactly when the groups are a truthy value that cannot be iterated
    ensures r.Err? <==>
              && !Truthy(DishCards(At(CardGroups(response), 1)))
              && Truthy(CardGroups(response))
              && !CardGroups(response).value.JArr?
              && !CardGroups(response).value.JStr?
    // a success is truthy dish cards or the empty array
    ensures r.Ok? ==> r.value == JArr([]) || Truthy(Some(r.value))
    // with nothing at the fixed position and no groups to scan (absent,
    // falsy, or a string), the result is the empty array
    ensures !Truthy(DishCards(At(CardGroups(response), 1)))
            && (!Truthy(CardGroups(response)) || CardGroups(response).value.JStr?) ==>
              r == Ok(JArr([]))
  {
    var primary := DishCards(At(CardGroups(response), 1));
    if Truthy(primary) then Ok(primary.value)
    else
      var groups := CardGroups(response);
      if !Truthy(groups) then Ok(JArr([]))
      else
        match groups.value
        case JArr(items) =>
          var i := FirstExposing(items);
          if i < |items| then Ok(DishCards(Some(items[i])).value) else Ok(JArr([]))
        case JStr(_) => Ok(JArr([]))
        case _ => Err("TypeError: apiResponse.data.cards is not iterable")
  }

  /** When the fixed position exposes nothing and the groups are an array,
      the first group exposing dish cards supplies them, even if a later one
      also does; with none the result is the empty array, not an error. */
  lemma ExtractFallsBackToScan(response: Json, items: seq<Json>)
    requires !Truthy(DishCards(At(CardGroups(response), 1)))
    requires CardGroups(response) == Some(JArr(items))
    ensures (exists i :: 0 <= i < |items| && Truthy(DishCards(Some(items[i])))) ==>
              exists i :: 0 <= i < |items| && Truthy(DishCards(Some(items[i])))
                          && (forall j :: 0 <= j < i ==> !Truthy(DishCards(Some(items[j]))))
                          && ExtractCards(response) == Ok(DishCards(Some(items[i])).value)
    ensures (forall i :: 0 <= i < |items| ==> !Truthy(DishCards(Some(items[i])))) ==>
              ExtractCards(response) == Ok(JArr([]))
  {
    var k := FirstExposing(items);
    if exists i :: 0 <= i < |items| && Truthy(DishCards(Some(items[i]))) {
      assert k < |items|;
    }
  }
}
