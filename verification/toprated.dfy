/** `prepareTopRatedCards`: a stable sort by rating, highest first, cut to
    five cards, each re-shaped with its image id turned into a CDN URL. */
module TopRated {
  import opened Base
  import opened Json
  import opened Cards
  import Rating
  import Seqs
  import Sorting

  const ImagePrefix := "https://media-assets.swiggy.com/swiggy/image/upload/fl_lossy,f_auto,q_auto,w_208,h_208,c_fit/"

  const TopCount := 5

  /** A card of the response's `cards` list. */
  datatype TopCard = TopCard(name: Json, imageUrl: string, price: int, rating: Json, ratingCount: Json, ratingCountV2: Json)

  /** The sort key `parseFloat(card.aggregatedRating) || 0`, in tenths. */
  function Key(c: Card): int {
    Rating.RatingKey(c.aggregatedRating)
  }

  /** The cards sorted by key, highest first, equal keys in input order. */
  function Sorted(cards: seq<Card>): seq<Card> {
    Sorting.Sort(cards, Key)
  }

  function Reshape(c: Card): TopCard {
    TopCard(c.restaurantName, ImagePrefix + ToJsString(c.imageId), c.price,
            c.aggregatedRating, c.ratingCount, c.ratingCountV2)
  }

  /** The cards that make the cut: the first five of the sorted copy. */
  function Kept(cards: seq<Card>): seq<Card> {
    var sorted := Sorted(cards);
    sorted[..Min(TopCount, |sorted|)]
  }

  /** `prepareTopRatedCards`. */
  function PrepareTopRated(cards: seq<Card>): seq<TopCard> {
    Seqs.Map(Kept(cards), Reshape)
  }

  /** The kept cards are in non-increasing rating order and drawn from the
      input, and no card left out outranks a card kept. */
  lemma TopRatedSelection(cards: seq<Card>)
    ensures Sorting.Descending(Kept(cards), Key)
    ensures multiset(Kept(cards)) <= multiset(cards)
    ensures forall c, d :: c in Kept(cards) && d in multiset(cards) - multiset(Kept(cards)) ==> Key(d) <= Key(c)
  {
    Sorting.TopOf(cards, Key, TopCount);
  }

  /** At most five cards come back, fewer only when there are fewer; each
      entry is a reshaped kept card whose image URL is the CDN prefix
      followed by the card's image id. */
  lemma TopRatedEntries(cards: seq<Card>)
    ensures |PrepareTopRated(cards)| == Min(TopCount, |cards|)
    ensures forall i :: 0 <= i < |PrepareTopRated(cards)| ==>
              PrepareTopRated(cards)[i] == Reshape(Kept(cards)[i])
              && PrepareTopRated(cards)[i].imageUrl == ImagePrefix + ToJsString(Kept(cards)[i].imageId)
  {
  }

  /** Cards of equal rating come back in their input order. */
  lemma TopRatedStable(cards: seq<Card>, k: int)
    ensures Seqs.Filter(Sorted(cards), Sorting.KeyIs(Key, k)) == Seqs.Filter(cards, Sorting.KeyIs(Key, k))
  {
    Sorting.SortStable(cards, Key, k);
  }
}
