/** The user_favorites relation seen from one user: a set of product keys. */
module FavoriteRules {
  import opened Schema
  import opened Tables

  /** The outcome of POST and DELETE /favorites/:id. */
  datatype FavoriteReply = UnknownProduct | Favorited | Unfavorited {
    function Status(): int {
      match this
      case UnknownProduct => 404
      case Favorited => 201
      case Unfavorited => 204
    }
  }

  /** The product keys `u` has favorited. */
  function FavoriteSet(favorites: set<(Id, Id)>, u: Id): (s: set<Id>)
    ensures forall p :: p in s <==> (u, p) in favorites
  {
    set f | f in favorites && f.0 == u :: f.1
  }

  /** GET /favorites: `user.getFavorites()`, listed by key. */
  function FavoritesOf(favorites: set<(Id, Id)>, u: Id): (r: seq<Id>)
    ensures forall p :: p in r <==> (u, p) in favorites
    ensures forall j, k :: 0 <= j < k < |r| ==> r[j] != r[k]
  {
    var r := Ascending(FavoriteSet(favorites, u));
    assert forall j, k :: 0 <= j < k < |r| ==> r[j] < r[k];
    r
  }

  /** Adding a favorite puts exactly that product in the caller's list, adds
      no duplicate when it is already there, and leaves every other user's
      list as it was. */
  lemma AddShowsInList(favorites: set<(Id, Id)>, u: Id, p: Id, v: Id)
    ensures forall x :: x in FavoritesOf(favorites + {(u, p)}, u) <==> x in FavoritesOf(favorites, u) || x == p
    ensures (u, p) in favorites ==> FavoritesOf(favorites + {(u, p)}, u) == FavoritesOf(favorites, u)
    ensures v != u ==> FavoritesOf(favorites + {(u, p)}, v) == FavoritesOf(favorites, v)
  {
    if (u, p) in favorites {
      assert favorites + {(u, p)} == favorites;
    }
    if v != u {
      assert FavoriteSet(favorites + {(u, p)}, v) == FavoriteSet(favorites, v);
    }
  }

  /** Removing a favorite takes exactly that product out of the caller's list
      and leaves every other user's list as it was. */
  lemma RemoveHidesFromList(favorites: set<(Id, Id)>, u: Id, p: Id, v: Id)
    ensures forall x :: x in FavoritesOf(favorites - {(u, p)}, u) <==> x in FavoritesOf(favorites, u) && x != p
    ensures v != u ==> FavoritesOf(favorites - {(u, p)}, v) == FavoritesOf(favorites, v)
  {
    if v != u {
      assert FavoriteSet(favorites - {(u, p)}, v) == FavoriteSet(favorites, v);
    }
  }
}
