/**
 * The favourites provider: a list of restaurant ids, a membership test, and a toggle
 * that removes a favourite or appends a new one. The list loaded from the server
 * takes each record's `restaurant_id`, or its `id` when that is empty.
 */
module Favorites {
  import opened Values

  /** `favorites.filter(id => id !== restaurantId)`. */
  function RemoveAll(favs: seq<string>, id: string): (r: seq<string>)
    ensures id !in r
    ensures forall x :: x != id ==> (x in r <==> x in favs)
    ensures |r| <= |favs|
  {
    if favs == [] then []
    else (if favs[0] == id then [] else [favs[0]]) + RemoveAll(favs[1..], id)
  }

  /** Removing keeps the others in their order: it distributes over concatenation. */
  lemma {:induction false} RemoveAllConcat(a: seq<string>, b: seq<string>, id: string)
    ensures RemoveAll(a + b, id) == RemoveAll(a, id) + RemoveAll(b, id)
  {
    if a == [] {
      assert a + b == b;
    } else {
      assert (a + b)[1..] == a[1..] + b;
      RemoveAllConcat(a[1..], b, id);
    }
  }

  lemma {:induction false} RemoveAllAbsent(favs: seq<string>, id: string)
    requires id !in favs
    ensures RemoveAll(favs, id) == favs
  {
    if favs != [] {
      assert id !in favs[1..];
      RemoveAllAbsent(favs[1..], id);
    }
  }

  /** The new list `toggleFavorite` computes. */
  function Toggled(favs: seq<string>, id: string): (r: seq<string>)
    ensures id in favs ==> r == RemoveAll(favs, id)
    ensures id !in favs ==> r == favs + [id]
  {
    if id in favs then RemoveAll(favs, id) else favs + [id]
  }

  /** The toggled id's membership flips and every other id keeps its membership. */
  lemma ToggleFlips(favs: seq<string>, id: string)
    ensures (id in Toggled(favs, id)) <==> id !in favs
    ensures forall x :: x != id ==> (x in Toggled(favs, id) <==> x in favs)
  {
  }

  /** Toggling an id that is not a favourite twice gives back the same list. */
  lemma ToggleTwiceRestores(favs: seq<string>, id: string)
    requires id !in favs
    ensures Toggled(Toggled(favs, id), id) == favs
  {
    RemoveAllConcat(favs, [id], id);
    RemoveAllAbsent(favs, id);
    assert RemoveAll([id], id) == [];
  }

  /** A record of `GET /favorites/my`. */
  datatype FavoriteRecord = FavoriteRecord(restaurantId: Option<string>, id: string)

  /** `data.map(f => f.restaurant_id || f.id)`. */
  function LoadedIds(records: seq<FavoriteRecord>): (ids: seq<string>)
    ensures |ids| == |records|
    ensures forall k :: 0 <= k < |records| ==>
      ids[k] == if Truthy(records[k].restaurantId) then records[k].restaurantId.value else records[k].id
  {
    seq(|records|, k requires 0 <= k < |records| => OrElse(records[k].restaurantId, records[k].id))
  }

  /** The provider's state. */
  class FavoritesStore {
    var favorites: seq<string>

    constructor ()
      ensures favorites == []
    {
      favorites := [];
    }

    /** `isFavorite`. */
    function IsFavorite(id: string): (b: bool)
      reads this
      ensures b <==> exists k :: 0 <= k < |favorites| && favorites[k] == id
    {
      id in favorites
    }

    /** The list update of `toggleFavorite` (the storage write and API call are I/O). */
    method Toggle(id: string)
      modifies this
      ensures favorites == Toggled(old(favorites), id)
      ensures IsFavorite(id) <==> !old(IsFavorite(id))
    {
      favorites := Toggled(favorites, id);
    }

    /** The server branch of `loadFavorites`: a successful answer with data replaces
        the list; anything else leaves it. */
    method LoadFromServer(success: bool, data: Option<seq<FavoriteRecord>>)
      modifies this
      ensures success && data.Some? ==> favorites == LoadedIds(data.value)
      ensures !(success && data.Some?) ==> favorites == old(favorites)
    {
      if success && data.Some? {
        favorites := LoadedIds(data.value);
      }
    }
  }
}
