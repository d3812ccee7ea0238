/** The event card (`EventCardComponent`): its per-card favourites set and
    the labels it chooses from the event's status and seats. */
module EventCard {
  import opened EventModel

  /** The ids marked as favourite on one card. */
  type Favorites = set<string>

  /** A card starts with no favourites. */
  const NoFavorites: Favorites := {}

  predicate IsFavorite(favs: Favorites, id: string) {
    id in favs
  }

  /** `toggleFavorite`: flips the membership of `id` and of no other id. */
  function ToggleFavorite(favs: Favorites, id: string): (r: Favorites)
    ensures IsFavorite(r, id) <==> !IsFavorite(favs, id)
    ensures forall other :: other != id ==> (IsFavorite(r, other) <==> IsFavorite(favs, other))
  {
    if id in favs then favs - {id} else favs + {id}
  }

  /** Nothing is a favourite on a fresh card. */
  lemma InitiallyNoFavorite(id: string)
    ensures !IsFavorite(NoFavorites, id)
  {
  }

  /** Toggling the same id twice restores the set. */
  lemma ToggleTwice(favs: Favorites, id: string)
    ensures ToggleFavorite(ToggleFavorite(favs, id), id) == favs
  {
    var r := ToggleFavorite(ToggleFavorite(favs, id), id);
    assert forall x :: x in r <==> x in favs;
  }

  /** The status button's caption: "Unpublish" exactly for published events,
      "Publish" for every other status. */
  function StatusActionLabel(s: Status): (l: string)
    ensures l == "Unpublish" <==> s == Published
    ensures l == "Publish" <==> s != Published
  {
    if s == Published then "Unpublish" else "Publish"
  }

  /** The seat lines the card's footer may show. */
  datatype SeatsLine = SeatsLeft(count: int) | SoldOut

  /** The footer's two independent `*ngIf` lines: "n seats left" when seats are
      positive, "Sold out" when they are zero. Never both; neither for a
      negative count. */
  function SeatsLines(seats: int): (r: seq<SeatsLine>)
    ensures |r| <= 1
    ensures SeatsLeft(seats) in r <==> seats > 0
    ensures SoldOut in r <==> seats == 0
    ensures seats < 0 ==> r == []
  {
    (if seats > 0 then [SeatsLeft(seats)] else []) + (if seats == 0 then [SoldOut] else [])
  }
}
